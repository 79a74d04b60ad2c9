/** Recorded locations of a store, and their rewriting from the old directories to the new. */
module Locations {
  import opened Wrappers
  import opened Text
  import opened PosixPath

  datatype Stores = Stores(oldData: string, oldState: string, newData: string, newState: string) {
    function Old(): seq<string> { [oldData, oldState] }

    /** No directory's name occurs in another's: what the relocation insists on before it starts. */
    ghost predicate Apart() {
      && oldData != "" && oldState != "" && newData != "" && newState != ""
      && Unrelated(oldData, oldState) && Unrelated(oldData, newData) && Unrelated(oldData, newState)
      && Unrelated(oldState, newData) && Unrelated(oldState, newState) && Unrelated(newData, newState)
    }
  }

  ghost predicate Unrelated(a: string, b: string) {
    !Contains(a, b) && !Contains(b, a)
  }

  predicate IsNormalPath(path: string) {
    "/" <= path && Normpath(path) == path
  }

  function Directories(stores: Stores): seq<string> {
    [stores.oldData, stores.oldState, stores.newData, stores.newState]
  }

  /** What a relocation checks of its four directories' names before anything else: each an absolute,
      normalised path, and none part of another. */
  method CheckDirectories(stores: Stores) returns (ok: bool)
    ensures ok <==> stores.Apart() && forall i :: 0 <= i < 4 ==> AbsoluteNames(Directories(stores)[i])
  {
    var prefixes := Directories(stores);
    for i := 0 to 4
      invariant forall j :: 0 <= j < i ==> IsNormalPath(prefixes[j])
    {
      NormalFormOfAbsolute(prefixes[i]);
      if !IsNormalPath(prefixes[i]) { return false; }
    }
    forall j | 0 <= j < 4 ensures AbsoluteNames(prefixes[j]) {
      NormalFormOfAbsolute(prefixes[j]);
    }
    for i := 0 to 4
      invariant forall j, k :: 0 <= j < i && j < k < 4 ==> Unrelated(prefixes[j], prefixes[k])
    {
      for k := i + 1 to 4
        invariant forall l :: i < l < k ==> Unrelated(prefixes[i], prefixes[l])
      {
        RelatedPair(stores, i, k);
        if Contains(prefixes[k], prefixes[i]) || Contains(prefixes[i], prefixes[k]) {
          return false;
        }
      }
    }
    AllApart(stores);
    return true;
  }

  lemma RelatedPair(stores: Stores, i: nat, k: nat)
    requires i < k < 4
    ensures stores.Apart() ==> Unrelated(Directories(stores)[i], Directories(stores)[k])
  {
  }

  lemma AllApart(stores: Stores)
    requires forall j, k :: 0 <= j < k < 4 ==> Unrelated(Directories(stores)[j], Directories(stores)[k])
    requires forall j :: 0 <= j < 4 ==> IsNormalPath(Directories(stores)[j])
    ensures stores.Apart()
  {
    var d := Directories(stores);
    assert d[0] == stores.oldData && d[1] == stores.oldState && d[2] == stores.newData && d[3] == stores.newState;
    assert IsNormalPath(d[0]) && IsNormalPath(d[1]) && IsNormalPath(d[2]) && IsNormalPath(d[3]);
    assert Unrelated(d[0], d[1]) && Unrelated(d[0], d[2]) && Unrelated(d[0], d[3]);
    assert Unrelated(d[1], d[2]) && Unrelated(d[1], d[3]) && Unrelated(d[2], d[3]);
  }

  predicate MentionsAny(prefixes: seq<string>, value: string) {
    exists i | 0 <= i < |prefixes| :: Contains(value, prefixes[i])
  }

  /** `_mentions`. */
  predicate Mentions(stores: Stores, value: string) {
    MentionsAny(stores.Old(), value)
  }

  predicate Under(prefix: string, value: string) {
    value == prefix || prefix + "/" <= value
  }

  /** The new location of a value under `old`, unless it still names the old store. */
  function Moved(stores: Stores, old_: string, new_: string, value: string): (r: Result<string>)
    requires |old_| <= |value|
    ensures r.Refused? ==> r.code == "RELOCATION_REFUSED"
  {
    var mapped := new_ + value[|old_|..];
    if Mentions(stores, mapped) then Refused("RELOCATION_REFUSED") else Ok(mapped)
  }

  /** `_map`: values already new are accepted as they are. */
  function Map(stores: Stores, value: string): (r: Result<string>)
    ensures r.Refused? ==> r.code == "RELOCATION_REFUSED"
  {
    if Under(stores.oldData, value) then Moved(stores, stores.oldData, stores.newData, value)
    else if Under(stores.oldState, value) then Moved(stores, stores.oldState, stores.newState, value)
    else if Under(stores.newData, value) || Under(stores.newState, value) then Ok(value)
    else Refused("RELOCATION_REFUSED")
  }

  lemma PrefixIsContained(prefix: string, value: string)
    requires prefix <= value
    ensures Contains(value, prefix)
  {
    assert value[0..0 + |prefix|] == prefix;
    assert OccursAt(value, prefix, 0);
  }

  lemma UnderIsPrefix(prefix: string, value: string)
    requires Under(prefix, value)
    ensures prefix <= value && Contains(value, prefix)
  {
    if value != prefix {
      assert prefix + "/" <= value;
      assert value[..|prefix|] == (prefix + "/")[..|prefix|] == prefix;
    }
    PrefixIsContained(prefix, value);
  }

  /** A value lies under at most one of two unrelated directories. */
  lemma UnderOne(a: string, b: string, value: string)
    requires Unrelated(a, b)
    ensures !(Under(a, value) && Under(b, value))
  {
    if Under(a, value) {
      if Under(b, value) {
        UnderIsPrefix(a, value);
        UnderIsPrefix(b, value);
        if |a| <= |b| {
          assert a == value[..|a|] == b[..|a|];
          PrefixIsContained(a, b);
        } else {
          assert b == value[..|b|] == a[..|b|];
          PrefixIsContained(b, a);
        }
      }
    }
  }

  lemma MovedIsUnderNew(stores: Stores, old_: string, new_: string, value: string)
    requires Under(old_, value) && |old_| <= |value| && Moved(stores, old_, new_, value).Ok?
    ensures Under(new_, Moved(stores, old_, new_, value).value)
  {
    var mapped := new_ + value[|old_|..];
    if value == old_ {
      assert mapped == new_;
    } else {
      assert value[|old_|] == (old_ + "/")[|old_|] == '/';
      assert mapped[..|new_| + 1] == new_ + "/";
    }
  }

  /** A mapped location lies under the new directory its old one became, or was new already. */
  lemma MapIsNew(stores: Stores, value: string)
    requires stores.Apart() && Map(stores, value).Ok?
    ensures var mapped := Map(stores, value).value;
            && (Under(stores.oldData, value) ==> Under(stores.newData, mapped) && !Mentions(stores, mapped))
            && (Under(stores.oldState, value) ==> Under(stores.newState, mapped) && !Mentions(stores, mapped))
            && (Under(stores.newData, value) || Under(stores.newState, value) ==> mapped == value)
            && (Under(stores.newData, mapped) || Under(stores.newState, mapped))
            && !Under(stores.oldData, mapped) && !Under(stores.oldState, mapped)
  {
    var mapped := Map(stores, value).value;
    UnderOne(stores.oldData, stores.oldState, value);
    UnderOne(stores.oldData, stores.newData, value);
    UnderOne(stores.oldData, stores.newState, value);
    UnderOne(stores.oldState, stores.newData, value);
    UnderOne(stores.oldState, stores.newState, value);
    UnderOne(stores.oldData, stores.newData, mapped);
    UnderOne(stores.oldData, stores.newState, mapped);
    UnderOne(stores.oldState, stores.newData, mapped);
    UnderOne(stores.oldState, stores.newState, mapped);
    if Under(stores.oldData, value) {
      MovedIsUnderNew(stores, stores.oldData, stores.newData, value);
    } else if Under(stores.oldState, value) {
      MovedIsUnderNew(stores, stores.oldState, stores.newState, value);
    }
  }

  /** Mapping again changes nothing: what lets a stopped run be repeated. */
  lemma MapIsIdempotent(stores: Stores, value: string)
    requires stores.Apart() && Map(stores, value).Ok?
    ensures Map(stores, Map(stores, value).value) == Map(stores, value)
  {
    MapIsNew(stores, value);
  }

  predicate InOldStore(stores: Stores, value: string) {
    Under(stores.oldData, value) || Under(stores.oldState, value)
  }

  // ----- where a location goes

  /** What may follow a directory's name in a location below it, or nothing. */
  predicate IsSuffix(suffix: string) {
    suffix == "" || suffix[0] == '/'
  }

  /** The directory's name replaced, and nothing else. */
  ghost predicate Replaced(old_: string, new_: string, before: string, after: string) {
    exists suffix :: IsSuffix(suffix) && before == old_ + suffix && after == new_ + suffix
  }

  ghost predicate Below(dir: string, value: string) {
    exists suffix :: IsSuffix(suffix) && value == dir + suffix
  }

  /** A location of the old store goes to the same place in the new one, if that does not name the old
      store again; and one that is in the new store already stays. */
  ghost predicate Moves(stores: Stores, before: string, after: string) {
    || ((Replaced(stores.oldData, stores.newData, before, after) || Replaced(stores.oldState, stores.newState, before, after))
        && !Contains(after, stores.oldData) && !Contains(after, stores.oldState))
    || (after == before && (Below(stores.newData, before) || Below(stores.newState, before)))
  }

  lemma UnderIsBelow(dir: string, value: string)
    ensures Under(dir, value) <==> Below(dir, value)
    ensures Under(dir, value) ==> |dir| <= |value| && IsSuffix(value[|dir|..]) && value == dir + value[|dir|..]
  {
    if Under(dir, value) {
      UnderIsPrefix(dir, value);
      var suffix := value[|dir|..];
      assert value == dir + suffix;
      if value != dir { assert suffix[0] == value[|dir|] == (dir + "/")[|dir|]; }
      assert IsSuffix(suffix);
    }
    if Below(dir, value) {
      var suffix :| IsSuffix(suffix) && value == dir + suffix;
      if suffix != "" { assert value[..|dir| + 1] == dir + "/"; }
    }
  }

  /** `_map` takes each location where it should go, and refuses exactly what should go nowhere. */
  lemma MapMeaning(stores: Stores, value: string, after: string)
    requires stores.Apart()
    ensures Map(stores, value) == Ok(after) <==> Moves(stores, value, after)
  {
    UnderIsBelow(stores.newData, value);
    UnderIsBelow(stores.newState, value);
    UnderOne(stores.oldData, stores.oldState, value);
    UnderOne(stores.oldData, stores.newData, value);
    UnderOne(stores.oldData, stores.newState, value);
    UnderOne(stores.oldState, stores.newData, value);
    UnderOne(stores.oldState, stores.newState, value);
    MovedMeaning(stores, stores.oldData, stores.newData, value, after);
    MovedMeaning(stores, stores.oldState, stores.newState, value, after);
  }

  lemma MovedMeaning(stores: Stores, old_: string, new_: string, value: string, after: string)
    ensures Replaced(old_, new_, value, after) <==>
              Under(old_, value) && |old_| <= |value| && after == new_ + value[|old_|..]
    ensures Under(old_, value) ==> |old_| <= |value|
    ensures Under(old_, value) ==>
              (Moved(stores, old_, new_, value) == Ok(after) <==>
                 Replaced(old_, new_, value, after) && !Contains(after, stores.oldData) && !Contains(after, stores.oldState))
  {
    UnderIsBelow(old_, value);
    MentionsBoth(stores, after);
    if Replaced(old_, new_, value, after) {
      var suffix :| IsSuffix(suffix) && value == old_ + suffix && after == new_ + suffix;
      assert Below(old_, value);
      assert value[|old_|..] == suffix;
    }
  }

  lemma MentionsBoth(stores: Stores, value: string)
    ensures Mentions(stores, value) <==> Contains(value, stores.oldData) || Contains(value, stores.oldState)
  {
    assert stores.Old()[0] == stores.oldData && stores.Old()[1] == stores.oldState;
  }

  /** A location that goes to the same place as one of the old store, from the old store, is that one. */
  lemma MovesIsInjective(stores: Stores, a: string, b: string, after: string)
    requires stores.Apart() && InOldStore(stores, a) && InOldStore(stores, b)
    requires Moves(stores, a, after) && Moves(stores, b, after)
    ensures a == b
  {
    FromOld(stores, a, after);
    FromOld(stores, b, after);
    UnderOne(stores.newData, stores.newState, after);
  }

  lemma FromOld(stores: Stores, a: string, after: string)
    requires stores.Apart() && InOldStore(stores, a) && Moves(stores, a, after)
    ensures || (Under(stores.newData, after) && |stores.newData| <= |after|
                && a == stores.oldData + after[|stores.newData|..])
            || (Under(stores.newState, after) && |stores.newState| <= |after|
                && a == stores.oldState + after[|stores.newState|..])
  {
    UnderIsBelow(stores.newData, a);
    UnderIsBelow(stores.newState, a);
    UnderOne(stores.oldData, stores.newData, a);
    UnderOne(stores.oldData, stores.newState, a);
    UnderOne(stores.oldState, stores.newData, a);
    UnderOne(stores.oldState, stores.newState, a);
    ReplacedBack(stores.oldData, stores.newData, a, after);
    ReplacedBack(stores.oldState, stores.newState, a, after);
  }

  lemma ReplacedBack(old_: string, new_: string, a: string, after: string)
    ensures Replaced(old_, new_, a, after) ==>
              Under(new_, after) && |new_| <= |after| && a == old_ + after[|new_|..]
  {
    if Replaced(old_, new_, a, after) {
      var suffix :| IsSuffix(suffix) && a == old_ + suffix && after == new_ + suffix;
      UnderIsBelow(new_, after);
      assert Below(new_, after);
      assert after[|new_|..] == suffix;
    }
  }

  /** Two locations of the old store never become one location of the new. */
  lemma MapIsInjective(stores: Stores, a: string, b: string)
    requires stores.Apart() && InOldStore(stores, a) && InOldStore(stores, b)
    requires Map(stores, a).Ok? && Map(stores, a) == Map(stores, b)
    ensures a == b
  {
    MapIsNew(stores, a);
    MapIsNew(stores, b);
    var mapped := Map(stores, a).value;
    UnderOne(stores.newData, stores.newState, mapped);
    UnderOne(stores.oldData, stores.oldState, a);
    UnderOne(stores.oldData, stores.oldState, b);
    if Under(stores.oldData, a) {
      SameSuffix(stores.oldData, stores.newData, a, b, mapped);
    } else {
      SameSuffix(stores.oldState, stores.newState, a, b, mapped);
    }
  }

  lemma SameSuffix(old_: string, new_: string, a: string, b: string, mapped: string)
    requires Under(old_, a) && Under(old_, b) && |old_| <= |a| && |old_| <= |b|
    requires mapped == new_ + a[|old_|..] && mapped == new_ + b[|old_|..]
    ensures a == b
  {
    UnderIsPrefix(old_, a);
    UnderIsPrefix(old_, b);
    assert a[|old_|..] == mapped[|new_|..] && b[|old_|..] == mapped[|new_|..];
    assert a == old_ + a[|old_|..] && b == old_ + b[|old_|..];
  }

  /** A value already new is accepted even where it still names the old store further on: mentions
      are checked only in values that move. */
  lemma NewValuesAreNotRechecked(stores: Stores, rest: string)
    requires stores.Apart()
    ensures var value := stores.newData + "/" + rest + stores.oldData;
            Map(stores, value) == Ok(value) && Mentions(stores, value)
  {
    var value := stores.newData + "/" + rest + stores.oldData;
    assert value[..|stores.newData| + 1] == stores.newData + "/";
    UnderOne(stores.oldData, stores.newData, value);
    UnderOne(stores.oldState, stores.newData, value);
    PrefixIsContained(stores.oldData, stores.oldData);
    ContainsConcat(stores.newData + "/" + rest, stores.oldData, stores.oldData);
    assert stores.Old()[0] == stores.oldData;
  }

  // ----- the streaming scan

  function Concat(chunks: seq<string>): string {
    if chunks == [] then "" else Concat(chunks[..|chunks| - 1]) + chunks[|chunks| - 1]
  }

  /** The longest prefix's length, less one: what must be carried from one chunk to the next. */
  method Overlap(prefixes: seq<string>) returns (overlap: nat)
    requires prefixes != [] && forall i :: 0 <= i < |prefixes| ==> prefixes[i] != ""
    ensures forall i :: 0 <= i < |prefixes| ==> |prefixes[i]| <= overlap + 1
  {
    var longest := |prefixes[0]|;
    for n := 1 to |prefixes|
      invariant longest >= 1
      invariant forall i :: 0 <= i < n ==> |prefixes[i]| <= longest
    {
      if |prefixes[n]| > longest {
        longest := |prefixes[n]|;
      }
    }
    overlap := longest - 1;
  }

  function Suffix(s: string, n: nat): string {
    if n <= |s| then s[|s| - n..] else s
  }

  /** `_file_mentions`: reading in chunks with an overlapping tail finds a prefix exactly when the
      whole file holds one, however the file is cut. */
  method FileMentions(chunks: seq<string>, prefixes: seq<string>) returns (found: bool)
    requires prefixes != [] && forall i :: 0 <= i < |prefixes| ==> prefixes[i] != ""
    ensures found <==> MentionsAny(prefixes, Concat(chunks))
  {
    var overlap := Overlap(prefixes);
    var tail := "";
    for n := 0 to |chunks|
      invariant tail == Suffix(Concat(chunks[..n]), overlap)
      invariant !MentionsAny(prefixes, Concat(chunks[..n]))
    {
      ghost var before := Concat(chunks[..n]);
      var window := tail + chunks[n];
      assert chunks[..n + 1][..n] == chunks[..n] && Concat(chunks[..n + 1]) == before + chunks[n];
      WindowSuffices(before, chunks[n], prefixes, overlap);
      if MentionsAny(prefixes, window) {
        MentionsGrow(prefixes, Concat(chunks[..n + 1]), Concat(chunks[n + 1..]));
        ConcatSplits(chunks, n + 1);
        return true;
      }
      tail := if overlap > 0 then Suffix(window, overlap) else "";
    }
    assert chunks[..|chunks|] == chunks;
    return false;
  }

  lemma WindowSuffices(before: string, chunk: string, prefixes: seq<string>, overlap: nat)
    requires forall i :: 0 <= i < |prefixes| ==> |prefixes[i]| <= overlap + 1
    requires !MentionsAny(prefixes, before)
    ensures var window := Suffix(before, overlap) + chunk;
            && (MentionsAny(prefixes, window) <==> MentionsAny(prefixes, before + chunk))
            && Suffix(window, overlap) == Suffix(before + chunk, overlap)
  {
    var tail := Suffix(before, overlap);
    var head := before[..|before| - |tail|];
    var window, whole := tail + chunk, before + chunk;
    assert before == head + tail && whole == head + window;
    forall i | 0 <= i < |prefixes| ensures Contains(window, prefixes[i]) <==> Contains(whole, prefixes[i]) {
      ContainsConcat(head, window, prefixes[i]);
      assert !Contains(before, prefixes[i]);
      LateOccurrence(before, chunk, prefixes[i], overlap);
    }
  }

  /** An occurrence not within what was read before lies within the window. */
  lemma LateOccurrence(before: string, chunk: string, p: string, overlap: nat)
    requires |p| <= overlap + 1 && !Contains(before, p)
    ensures Contains(before + chunk, p) ==> Contains(Suffix(before, overlap) + chunk, p)
  {
    var tail := Suffix(before, overlap);
    var whole, window, cut := before + chunk, tail + chunk, |before| - |tail|;
    assert |tail| == if overlap <= |before| then overlap else |before|;
    if Contains(whole, p) {
      var j :| 0 <= j <= |whole| && OccursAt(whole, p, j);
      if j + |p| <= |before| {
        assert before[j..j + |p|] == whole[j..j + |p|];
        assert OccursAt(before, p, j);
        assert false;
      }
      assert j >= cut;
      assert window == whole[cut..];
      assert window[j - cut..j - cut + |p|] == whole[j..j + |p|];
      assert OccursAt(window, p, j - cut);
    }
  }

  lemma MentionsGrow(prefixes: seq<string>, a: string, b: string)
    ensures MentionsAny(prefixes, a) ==> MentionsAny(prefixes, a + b)
  {
    forall i | 0 <= i < |prefixes| ensures Contains(a, prefixes[i]) ==> Contains(a + b, prefixes[i]) {
      ContainsConcat(a, b, prefixes[i]);
    }
  }

  lemma {:induction false} ConcatSplits(chunks: seq<string>, n: nat)
    requires n <= |chunks|
    ensures Concat(chunks) == Concat(chunks[..n]) + Concat(chunks[n..])
    decreases |chunks|
  {
    if n == |chunks| {
      assert chunks[..n] == chunks && chunks[n..] == [];
    } else {
      var last := |chunks| - 1;
      ConcatSplits(chunks[..last], n);
      assert chunks[..last][..n] == chunks[..n];
      assert chunks[n..][..last - n] == chunks[..last][n..];
    }
  }
}
