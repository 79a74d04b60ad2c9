/** The identity of a bundle of verifiers: what its digest is fed. */
module Bundles {
  import opened Wrappers
  import opened Text
  import opened Hexadecimal
  import opened Delta

  /** A member's content is a digest in hexadecimal digits, after "sha256:" or not, or empty. */
  datatype Content = Content(key: Key, content: string)

  /** What a member feeds the digest: its key and the bytes of its content. */
  datatype Fed = Fed(key: Key, raw: string)

  const DOMAIN := "worldline-execution-verifier-set-v1\0"
  const ALGORITHM := "sha256:"
  const ZEROS := "\0\0\0\0\0\0\0\0\0\0\0\0\0\0\0\0\0\0\0\0\0\0\0\0\0\0\0\0\0\0\0\0"

  // ----- the bytes of a content

  predicate IsSpace(c: char) {
    c == ' ' || c == '\t' || c == '\n' || c == '\r' || c as int == 11 || c as int == 12
  }

  /** Python's `bytes.fromhex`: pairs of digits, with white space between them. */
  function FromHex(s: string): Option<string> {
    if s == "" then Some("")
    else if IsSpace(s[0]) then FromHex(s[1..])
    else if |s| == 1 then None
    else
      match (Digit(s[0]), Digit(s[1]), FromHex(s[2..]))
      case (Some(high), Some(low), Some(rest)) => Some([(16 * high + low) as char] + rest)
      case _ => None
  }

  function Raw(content: string): Option<string> {
    var raw := if ALGORITHM <= content then content[|ALGORITHM|..] else content;
    if raw == "" then Some(ZEROS) else FromHex(raw)
  }

  predicate AreBytes(s: string) {
    forall k :: 0 <= k < |s| ==> s[k] as int < 256
  }

  /** Bytes written with these digits. */
  function Hex(bytes: string, digits: string): (text: string)
    requires |digits| == 16 && AreBytes(bytes)
  {
    if bytes == "" then ""
    else
      var (high, low) := Halves(bytes[0]);
      [digits[high], digits[low]] + Hex(bytes[1..], digits)
  }

  function Halves(c: char): (h: (nat, nat))
    requires c as int < 256
    ensures h.0 < 16 && h.1 < 16 && 16 * h.0 + h.1 == c as int
  {
    (c as int / 16, c as int % 16)
  }

  lemma FromPair(high: char, low: char, rest: string, bytes: string)
    requires Digit(high).Some? && Digit(low).Some? && FromHex(rest) == Some(bytes)
    ensures FromHex([high, low] + rest) == Some([(16 * Digit(high).value + Digit(low).value) as char] + bytes)
  {
    var text := [high, low] + rest;
    assert text[0] == high && text[1] == low && text[2..] == rest;
  }

  lemma HexStep(bytes: string, digits: string)
    requires |digits| == 16 && AreBytes(bytes) && bytes != ""
    ensures Hex(bytes, digits) == [digits[Halves(bytes[0]).0], digits[Halves(bytes[0]).1]] + Hex(bytes[1..], digits)
  {
  }

  lemma {:induction false} HexReadsBack(bytes: string, digits: string)
    requires IsAlphabet(digits) && AreBytes(bytes)
    ensures FromHex(Hex(bytes, digits)) == Some(bytes)
    ensures bytes != "" ==> Hex(bytes, digits) != "" && Digit(Hex(bytes, digits)[0]).Some?
  {
    if bytes != "" {
      HexReadsBack(bytes[1..], digits);
      assert bytes == [bytes[0]] + bytes[1..];
      OneMoreByte(bytes[0], bytes[1..], digits);
    }
  }

  lemma OneMoreByte(c: char, bytes: string, digits: string)
    requires IsAlphabet(digits) && c as int < 256 && AreBytes(bytes) && FromHex(Hex(bytes, digits)) == Some(bytes)
    ensures AreBytes([c] + bytes)
    ensures var text := Hex([c] + bytes, digits);
            text != "" && FromHex(text) == Some([c] + bytes) && Digit(text[0]).Some?
  {
    var all, halves := [c] + bytes, Halves(c);
    assert all[0] == c && all[1..] == bytes;
    HexStep(all, digits);
    ByteReadsBack(c, digits, halves.0, halves.1, Hex(bytes, digits), bytes);
  }

  lemma ByteReadsBack(c: char, digits: string, high: nat, low: nat, rest: string, bytes: string)
    requires IsAlphabet(digits) && high < 16 && low < 16 && c as int == 16 * high + low && FromHex(rest) == Some(bytes)
    ensures FromHex([digits[high], digits[low]] + rest) == Some([c] + bytes) && Digit(digits[high]).Some?
  {
    assert Digit(digits[high]) == Some(high) && Digit(digits[low]) == Some(low);
    FromPair(digits[high], digits[low], rest, bytes);
  }

  /** A content that spells bytes in hexadecimal, in either case and after "sha256:" or not, stands for them. */
  lemma ContentReadsBack(bytes: string, digits: string)
    requires IsAlphabet(digits) && bytes != "" && AreBytes(bytes)
    ensures Raw(Hex(bytes, digits)) == Raw(ALGORITHM + Hex(bytes, digits)) == Some(bytes)
  {
    HexReadsBack(bytes, digits);
    Prefixed(Hex(bytes, digits));
    NoAlgorithm(Hex(bytes, digits));
  }

  lemma NothingAfterAlgorithm()
    ensures Raw(ALGORITHM) == Raw("") == Some(ZEROS)
  {
    Prefixed("");
    assert ALGORITHM + "" == ALGORITHM;
  }

  lemma NoAlgorithm(text: string)
    requires text != "" && Digit(text[0]).Some?
    ensures Raw(text) == FromHex(text)
  {
    assert ALGORITHM[0] == 's' && Digit('s') == None;
  }

  lemma Prefixed(text: string)
    requires text == "" || Digit(text[0]).Some?
    ensures Raw(ALGORITHM + text) == Raw(text)
  {
    assert (ALGORITHM + text)[|ALGORITHM|..] == text;
    assert ALGORITHM[0] == 's' && Digit('s') == None;
  }

  lemma {:induction false} FromZeros(digits: string)
    requires |digits| % 2 == 0 && forall k :: 0 <= k < |digits| ==> digits[k] == '0'
    ensures var r := FromHex(digits);
            r.Some? && |r.value| == |digits| / 2 && forall k :: 0 <= k < |r.value| ==> r.value[k] == '\0'
  {
    if digits != "" { FromZeros(digits[2..]); }
  }

  /** Nothing measured is fed as a digest of zeros. */
  lemma ZerosAreUnmeasured(digits: string)
    requires |digits| == 64 && forall k :: 0 <= k < |digits| ==> digits[k] == '0'
    ensures Raw(digits) == Raw("") == Some(ZEROS)
  {
    FromZeros(digits);
    assert ALGORITHM[0] == 's';
    assert |ZEROS| == 32 && forall k :: 0 <= k < 32 ==> ZEROS[k] == '\0';
    assert FromHex(digits).value == ZEROS;
  }

  // ----- the members in order

  predicate MemberLess(a: Content, b: Content) {
    KeyLess(a.key, b.key) || (a.key == b.key && Less(a.content, b.content))
  }

  function Insert(m: Content, sorted: seq<Content>): seq<Content> {
    if sorted == [] then [m]
    else if MemberLess(sorted[0], m) then [sorted[0]] + Insert(m, sorted[1..])
    else [m] + sorted
  }

  /** `sorted(members)`. */
  function InOrder(members: seq<Content>): seq<Content> {
    if members == [] then [] else Insert(members[0], InOrder(members[1..]))
  }

  ghost predicate IsSorted(members: seq<Content>) {
    forall i, j :: 0 <= i < j < |members| ==> !MemberLess(members[j], members[i])
  }

  lemma MemberOrder(a: Content, b: Content, c: Content)
    ensures a == b || MemberLess(a, b) || MemberLess(b, a)
    ensures !(MemberLess(a, b) && MemberLess(b, a))
    ensures MemberLess(a, b) && !MemberLess(c, b) ==> !MemberLess(c, a)
  {
    KeyOrder(a.key, b.key, a.key);
    KeyOrder(a.key, b.key, c.key);
    KeyOrder(c.key, a.key, b.key);
    KeyOrder(b.key, a.key, b.key);
    LessTotal(a.content, b.content);
    LessIrreflexive(a.content);
    if Less(a.content, b.content) && Less(b.content, a.content) {
      LessTransitive(a.content, b.content, a.content);
    }
    if Less(c.content, a.content) && Less(a.content, b.content) {
      LessTransitive(c.content, a.content, b.content);
    }
  }

  lemma {:induction false} InsertSorts(m: Content, sorted: seq<Content>)
    requires IsSorted(sorted)
    ensures IsSorted(Insert(m, sorted)) && multiset(Insert(m, sorted)) == multiset(sorted) + multiset{m}
  {
    if sorted == [] {
    } else {
      var head, rest := sorted[0], sorted[1..];
      assert sorted == [head] + rest;
      if MemberLess(head, m) {
        InsertSorts(m, rest);
        HeadStays(sorted, m, Insert(m, rest));
      } else {
        forall j | 0 <= j < |sorted| ensures !MemberLess(sorted[j], m) {
          MemberOrder(m, head, sorted[j]);
          MemberOrder(head, m, sorted[j]);
        }
      }
    }
  }

  lemma HeadStays(sorted: seq<Content>, m: Content, all: seq<Content>)
    requires sorted != [] && IsSorted(sorted) && MemberLess(sorted[0], m)
    requires multiset(all) == multiset(sorted[1..]) + multiset{m}
    ensures forall j :: 0 <= j < |all| ==> !MemberLess(all[j], sorted[0])
  {
    MemberOrder(sorted[0], m, m);
    forall j | 0 <= j < |all| ensures !MemberLess(all[j], sorted[0]) {
      assert all[j] in multiset(all);
      if all[j] != m {
        var k :| 0 <= k < |sorted[1..]| && sorted[1..][k] == all[j];
        assert sorted[k + 1] == all[j];
      }
    }
  }

  lemma {:induction false} InOrderSorts(members: seq<Content>)
    ensures IsSorted(InOrder(members)) && multiset(InOrder(members)) == multiset(members)
  {
    if members != [] {
      InOrderSorts(members[1..]);
      InsertSorts(members[0], InOrder(members[1..]));
      assert members == [members[0]] + members[1..];
    }
  }

  // ----- the digest's input

  function MemberFeed(m: Fed): string {
    m.key.rootKey + "\0" + m.key.path + "\0" + m.raw + "\0"
  }

  function Feed(members: seq<Fed>): string {
    if members == [] then "" else MemberFeed(members[0]) + Feed(members[1..])
  }

  ghost predicate AllHex(members: seq<Content>) {
    forall i :: 0 <= i < |members| ==> Raw(members[i].content).Some?
  }

  /** The members with their bytes. */
  ghost function FedAll(members: seq<Content>): (fed: seq<Fed>)
    requires AllHex(members)
    ensures |fed| == |members|
    ensures forall i :: 0 <= i < |members| ==> fed[i] == Fed(members[i].key, Raw(members[i].content).value)
  {
    if members == [] then []
    else [Fed(members[0].key, Raw(members[0].content).value)] + FedAll(members[1..])
  }

  lemma {:induction false} FeedSnoc(members: seq<Fed>, last: Fed)
    ensures Feed(members + [last]) == Feed(members) + MemberFeed(last)
  {
    if members == [] {
      assert [] + [last] == [last] && [last][1..] == [];
    } else {
      assert (members + [last])[1..] == members[1..] + [last];
      FeedSnoc(members[1..], last);
    }
  }

  lemma {:induction false} AllHexInOrder(members: seq<Content>)
    ensures AllHex(InOrder(members)) <==> AllHex(members)
  {
    if members != [] {
      AllHexInOrder(members[1..]);
      InsertHex(members[0], InOrder(members[1..]));
      assert members == [members[0]] + members[1..];
    }
  }

  lemma {:induction false} InsertHex(m: Content, sorted: seq<Content>)
    ensures AllHex(Insert(m, sorted)) <==> Raw(m.content).Some? && AllHex(sorted)
  {
    HexFirst(m, sorted);
    if sorted != [] {
      var head, rest := sorted[0], sorted[1..];
      assert sorted == [head] + rest;
      if MemberLess(head, m) {
        InsertHex(m, rest);
        HexFirst(head, rest);
        HexFirst(head, Insert(m, rest));
      }
    }
  }

  lemma HexFirst(m: Content, rest: seq<Content>)
    ensures AllHex([m] + rest) <==> Raw(m.content).Some? && AllHex(rest)
  {
    var all := [m] + rest;
    assert all[0] == m && forall k :: 0 <= k < |rest| ==> rest[k] == all[k + 1];
  }

  lemma FedSnoc(members: seq<Content>, n: nat)
    requires n < |members| && AllHex(members[..n]) && Raw(members[n].content).Some?
    ensures AllHex(members[..n + 1])
    ensures FedAll(members[..n + 1]) == FedAll(members[..n]) + [Fed(members[n].key, Raw(members[n].content).value)]
  {
    assert members[..n + 1] == members[..n] + [members[n]];
    FedPlus(members[..n], members[n]);
  }

  lemma FedPlus(before: seq<Content>, m: Content)
    requires AllHex(before) && Raw(m.content).Some?
    ensures AllHex(before + [m])
    ensures FedAll(before + [m]) == FedAll(before) + [Fed(m.key, Raw(m.content).value)]
  {
    var now := before + [m];
    assert forall k :: 0 <= k < |before| ==> now[k] == before[k];
  }

  lemma FeedAfter(fed: seq<Fed>, next: Fed, text: string)
    requires text == DOMAIN + Feed(fed)
    ensures text + MemberFeed(next) == DOMAIN + Feed(fed + [next])
  {
    FeedSnoc(fed, next);
  }

  /** What the identity of a bundle is a digest of. */
  ghost function Identity(members: seq<Content>): string
    requires AllHex(members)
  {
    AllHexInOrder(members);
    DOMAIN + Feed(FedAll(InOrder(members)))
  }

  /** `bundle_identity`, before the digest; None where the source raises. */
  method BundleFeed(members: seq<Content>) returns (feed: Option<string>)
    ensures feed.Some? <==> AllHex(members)
    ensures feed.Some? ==> feed.value == Identity(members)
  {
    AllHexInOrder(members);
    var sorted := InOrder(members);
    var text := DOMAIN;
    ghost var fed: seq<Fed> := [];
    for n := 0 to |sorted|
      invariant AllHex(sorted[..n]) && fed == FedAll(sorted[..n])
      invariant text == DOMAIN + Feed(fed)
    {
      var raw := Raw(sorted[n].content);
      if raw.None? {
        return None;
      }
      var next := Fed(sorted[n].key, raw.value);
      FedSnoc(sorted, n);
      FeedAfter(fed, next, text);
      text := text + MemberFeed(next);
      fed := fed + [next];
    }
    assert sorted[..|sorted|] == sorted;
    return Some(text);
  }

  // ----- reading it back

  /** Root keys and paths hold no NUL, and a digest is 32 bytes. */
  ghost predicate FedValid(members: seq<Fed>) {
    forall i :: 0 <= i < |members| ==>
      '\0' !in members[i].key.rootKey && '\0' !in members[i].key.path && |members[i].raw| == 32
  }

  lemma FieldEnds(a: string, b: string, x: string, y: string)
    requires '\0' !in a && '\0' !in b && a + "\0" + x == b + "\0" + y
    ensures a == b && x == y
  {
    SplitConcat(a, x, '\0');
    SplitConcat(b, y, '\0');
    SplitPlain(a, '\0');
    SplitPlain(b, '\0');
    assert ([a] + Split(x, '\0'))[0] == a && ([b] + Split(y, '\0'))[0] == b;
    assert (a + "\0" + x)[|a| + 1..] == x && (b + "\0" + y)[|b| + 1..] == y;
  }

  lemma MemberEnds(k: Fed, l: Fed, x: string, y: string)
    requires FedValid([k]) && FedValid([l])
    requires MemberFeed(k) + x == MemberFeed(l) + y
    ensures k == l && x == y
  {
    assert [k][0] == k && [l][0] == l;
    var u, v := k.raw + "\0" + x, l.raw + "\0" + y;
    assert MemberFeed(k) + x == k.key.rootKey + "\0" + (k.key.path + "\0" + u);
    assert MemberFeed(l) + y == l.key.rootKey + "\0" + (l.key.path + "\0" + v);
    FieldEnds(k.key.rootKey, l.key.rootKey, k.key.path + "\0" + u, l.key.path + "\0" + v);
    FieldEnds(k.key.path, l.key.path, u, v);
    assert k.raw == u[..32] && l.raw == v[..32];
    assert x == u[33..] && y == v[33..];
  }

  /** What is fed can be read back: equal feeds come from equal members in equal order. */
  lemma {:induction false} FeedIsInjective(a: seq<Fed>, b: seq<Fed>)
    requires FedValid(a) && FedValid(b)
    ensures Feed(a) == Feed(b) <==> a == b
    decreases |a|
  {
    if a == [] || b == [] {
      FeedIsEmpty(a);
      FeedIsEmpty(b);
    } else if Feed(a) == Feed(b) {
      MemberEnds(a[0], b[0], Feed(a[1..]), Feed(b[1..]));
      FeedIsInjective(a[1..], b[1..]);
      assert a == [a[0]] + a[1..] && b == [b[0]] + b[1..];
    }
  }

  lemma FeedIsEmpty(a: seq<Fed>)
    ensures a == [] <==> Feed(a) == ""
  {
    if a != [] {
      assert |MemberFeed(a[0])| >= 3;
    }
  }

  // ----- what the identity fixes

  ghost predicate BundleValid(members: seq<Content>) {
    AllHex(members) && FedValid(FedAll(members))
  }

  lemma ValidInOrder(members: seq<Content>)
    requires BundleValid(members)
    ensures AllHex(InOrder(members)) && FedValid(FedAll(InOrder(members)))
    ensures multiset(FedAll(InOrder(members))) == multiset(FedAll(members))
  {
    AllHexInOrder(members);
    SameFed(members);
    var a, b := FedAll(InOrder(members)), FedAll(members);
    forall i | 0 <= i < |a|
      ensures '\0' !in a[i].key.rootKey && '\0' !in a[i].key.path && |a[i].raw| == 32
    {
      assert a[i] in multiset(b);
      assert a[i] in b;
    }
  }

  lemma {:induction false} SameFed(members: seq<Content>)
    requires AllHex(members)
    ensures AllHex(InOrder(members)) && multiset(FedAll(InOrder(members))) == multiset(FedAll(members))
  {
    AllHexInOrder(members);
    if members != [] {
      var rest := members[1..];
      AllHexInOrder(rest);
      SameFed(rest);
      InsertFed(members[0], InOrder(rest));
      assert FedAll(members) == [Fed(members[0].key, Raw(members[0].content).value)] + FedAll(rest);
    }
  }

  ghost predicate Adds(before: seq<Content>, m: Content, after: seq<Content>) {
    && AllHex(before) && Raw(m.content).Some? && AllHex(after)
    && multiset(FedAll(after)) == multiset{Fed(m.key, Raw(m.content).value)} + multiset(FedAll(before))
  }

  lemma {:induction false} InsertFed(m: Content, sorted: seq<Content>)
    requires Raw(m.content).Some? && AllHex(sorted)
    ensures Adds(sorted, m, Insert(m, sorted))
  {
    if sorted != [] && MemberLess(sorted[0], m) {
      var head, rest := sorted[0], sorted[1..];
      assert sorted == [head] + rest;
      InsertFed(m, rest);
      AddsAfter(head, rest, m, Insert(m, rest));
    } else {
      FedCons(m, sorted);
      if sorted == [] { assert [m] + sorted == [m]; }
    }
  }

  lemma AddsAfter(head: Content, rest: seq<Content>, m: Content, all: seq<Content>)
    requires Adds(rest, m, all) && Raw(head.content).Some?
    ensures Adds([head] + rest, m, [head] + all)
  {
    FedCons(head, rest);
    FedCons(head, all);
  }

  lemma FedCons(m: Content, rest: seq<Content>)
    requires Raw(m.content).Some? && AllHex(rest)
    ensures AllHex([m] + rest)
    ensures multiset(FedAll([m] + rest)) == multiset{Fed(m.key, Raw(m.content).value)} + multiset(FedAll(rest))
  {
    var all := [m] + rest;
    assert all[0] == m && all[1..] == rest;
    assert FedAll(all) == [Fed(m.key, Raw(m.content).value)] + FedAll(rest);
  }

  /** Two producers compute one identity exactly when their members, sorted, have equal keys and bytes;
      the members are then the same up to order, nothing measured counting as 32 zero bytes. */
  lemma IdentityFixesBundle(m: seq<Content>, n: seq<Content>)
    requires BundleValid(m) && BundleValid(n)
    ensures AllHex(InOrder(m)) && AllHex(InOrder(n))
    ensures Identity(m) == Identity(n) <==> FedAll(InOrder(m)) == FedAll(InOrder(n))
    ensures Identity(m) == Identity(n) ==> multiset(FedAll(m)) == multiset(FedAll(n))
  {
    ValidInOrder(m);
    ValidInOrder(n);
    var a, b := Feed(FedAll(InOrder(m))), Feed(FedAll(InOrder(n)));
    assert (DOMAIN + a)[|DOMAIN|..] == a && (DOMAIN + b)[|DOMAIN|..] == b;
    FeedIsInjective(FedAll(InOrder(m)), FedAll(InOrder(n)));
  }

  ghost predicate NoKeyTwice(members: seq<Content>) {
    forall i, j :: 0 <= i < j < |members| ==> members[i].key != members[j].key
  }

  ghost predicate KeysAscend(members: seq<Fed>) {
    forall i, j :: 0 <= i < j < |members| ==> KeyLess(members[i].key, members[j].key)
  }

  ghost predicate Ascends(members: seq<Content>) {
    forall i, j :: 0 <= i < j < |members| ==> KeyLess(members[i].key, members[j].key)
  }

  lemma {:induction false} InsertAscends(m: Content, sorted: seq<Content>)
    requires Ascends(sorted) && forall k :: 0 <= k < |sorted| ==> sorted[k].key != m.key
    ensures Ascends(Insert(m, sorted))
    ensures forall x :: x in Insert(m, sorted) <==> x == m || x in sorted
  {
    if sorted != [] {
      var head, rest := sorted[0], sorted[1..];
      assert sorted == [head] + rest;
      KeyOrder(head.key, m.key, head.key);
      if MemberLess(head, m) {
        InsertAscends(m, rest);
        forall x | x in Insert(m, rest) ensures KeyLess(head.key, x.key) {
          if x != m {
            var k :| 0 <= k < |rest| && rest[k] == x;
            assert sorted[k + 1] == x;
          }
        }
      } else {
        forall j | 0 <= j < |sorted| ensures KeyLess(m.key, sorted[j].key) {
          KeyOrder(m.key, head.key, sorted[j].key);
        }
      }
    }
  }

  lemma {:induction false} InOrderAscends(members: seq<Content>)
    requires NoKeyTwice(members)
    ensures Ascends(InOrder(members)) && forall x :: x in InOrder(members) <==> x in members
  {
    if members != [] {
      var rest := members[1..];
      InOrderAscends(rest);
      forall k | 0 <= k < |InOrder(rest)| ensures InOrder(rest)[k].key != members[0].key {
        assert InOrder(rest)[k] in rest;
        var i :| 0 <= i < |rest| && rest[i] == InOrder(rest)[k];
        assert members[i + 1] == rest[i];
      }
      InsertAscends(members[0], InOrder(rest));
      assert members == [members[0]] + rest;
    }
  }

  lemma {:induction false} OneOrder(a: seq<Fed>, b: seq<Fed>)
    requires KeysAscend(a) && KeysAscend(b) && multiset(a) == multiset(b)
    ensures a == b
  {
    assert |a| == |multiset(a)| == |b|;
    if a != [] {
      OneFirst(a, b);
      assert a == [a[0]] + a[1..] && b == [b[0]] + b[1..];
      assert multiset(a[1..]) == multiset(a) - multiset{a[0]};
      assert multiset(b[1..]) == multiset(b) - multiset{b[0]};
      OneOrder(a[1..], b[1..]);
    }
  }

  lemma OneFirst(a: seq<Fed>, b: seq<Fed>)
    requires KeysAscend(a) && KeysAscend(b) && multiset(a) == multiset(b) && a != [] && b != []
    ensures a[0] == b[0]
  {
    assert a[0] in multiset(b) && b[0] in multiset(a);
    var i :| 0 <= i < |b| && b[i] == a[0];
    var j :| 0 <= j < |a| && a[j] == b[0];
    KeyOrder(a[0].key, b[0].key, a[0].key);
    KeyOrder(a[0].key, a[0].key, a[0].key);
  }

  /** Where no key is there twice, whatever order the producers list them in, the same members with the
      same bytes give the same identity, and only they do. */
  lemma IdentityOfKeys(m: seq<Content>, n: seq<Content>)
    requires BundleValid(m) && BundleValid(n) && NoKeyTwice(m) && NoKeyTwice(n)
    ensures Identity(m) == Identity(n) <==> multiset(FedAll(m)) == multiset(FedAll(n))
  {
    IdentityFixesBundle(m, n);
    ValidInOrder(m);
    ValidInOrder(n);
    InOrderAscends(m);
    InOrderAscends(n);
    if multiset(FedAll(m)) == multiset(FedAll(n)) {
      OneOrder(FedAll(InOrder(m)), FedAll(InOrder(n)));
    }
  }

  /** A key that is there twice is sorted by how its contents are spelled: the same two digests, each time
      the other one with the algorithm's name, give two identities. */
  lemma SpellingsDiffer(key: Key, a: string, b: string, x: string, y: string, m: seq<Content>, n: seq<Content>)
    requires a != "" && b != "" && Digit(a[0]).Some? && Digit(b[0]).Some?
    requires Raw(a) == Some(x) && Raw(b) == Some(y) && x != y
    requires m == [Content(key, ALGORITHM + a), Content(key, b)] && n == [Content(key, a), Content(key, ALGORITHM + b)]
    requires BundleValid(m) && BundleValid(n)
    ensures multiset(FedAll(m)) == multiset(FedAll(n)) && Identity(m) != Identity(n)
  {
    NamedComesLast(key, a, b);
    NamedComesLast(key, b, a);
    NamedIsSame(a);
    NamedIsSame(b);
    TwoInOrder(m[0], m[1]);
    TwoInOrder(n[0], n[1]);
    assert m == [m[0], m[1]] && n == [n[0], n[1]];
    TwoFed(m[0], m[1], x, y);
    TwoFed(m[1], m[0], y, x);
    TwoFed(n[0], n[1], x, y);
    TwoIdentities(m, n, key, x, y);
  }

  lemma TwoIdentities(m: seq<Content>, n: seq<Content>, key: Key, x: string, y: string)
    requires BundleValid(m) && BundleValid(n) && x != y
    requires AllHex(InOrder(m)) && FedAll(InOrder(m)) == [Fed(key, y), Fed(key, x)]
    requires AllHex(InOrder(n)) && FedAll(InOrder(n)) == [Fed(key, x), Fed(key, y)]
    ensures Identity(m) != Identity(n)
  {
    IdentityFixesBundle(m, n);
    assert FedAll(InOrder(m))[0] == Fed(key, y) && FedAll(InOrder(n))[0] == Fed(key, x);
  }

  lemma TwoInOrder(u: Content, v: Content)
    ensures InOrder([u, v]) == if MemberLess(v, u) then [v, u] else [u, v]
  {
    var none: seq<Content> := [];
    assert [u, v][1..] == [v] && [v][1..] == none;
    assert InOrder([v]) == [v] by { assert InOrder(none) == none; }
    assert Insert(u, none) == [u];
  }

  lemma TwoFed(u: Content, v: Content, x: string, y: string)
    requires Raw(u.content) == Some(x) && Raw(v.content) == Some(y)
    ensures AllHex([u, v]) && FedAll([u, v]) == [Fed(u.key, x), Fed(v.key, y)]
  {
  }

  /** A digit sorts before the algorithm's name. */
  lemma NamedComesLast(key: Key, a: string, b: string)
    requires b != "" && Digit(b[0]).Some?
    ensures MemberLess(Content(key, b), Content(key, ALGORITHM + a))
    ensures !MemberLess(Content(key, ALGORITHM + a), Content(key, b))
  {
    assert (ALGORITHM + a)[0] == 's';
    KeyOrder(key, key, key);
  }

  lemma NamedIsSame(a: string)
    requires a != "" && Digit(a[0]).Some?
    ensures Raw(ALGORITHM + a) == Raw(a)
  {
    assert ALGORITHM <= ALGORITHM + a && (ALGORITHM + a)[|ALGORITHM|..] == a;
    assert ALGORITHM[0] == 's';
  }
}
