/** The anchor ledger: a hash-chained file of signed lines, and the copy of it that is exported. */
module Anchor {
  import opened Wrappers
  import opened Text

  /** SHA-256 and Ed25519 as the ledger uses them: digests and signatures in hexadecimal. */
  datatype Crypto = Crypto(sha: string -> string, sign: string -> string, signed: (string, string) -> bool) {
    ghost predicate Good() {
      && (forall a, b :: sha(a) == sha(b) ==> a == b)
      && (forall a :: Plain(sha(a)))
      && (forall m :: Plain(sign(m)) && signed(m, sign(m)))
    }

    function Genesis(): string { sha("custos-genesis-v1") }
  }

  predicate Plain(s: string) {
    s != "" && '\t' !in s && '\n' !in s && '\r' !in s
  }

  // ----- numbers in the fields

  function Digit(d: nat): char
    requires d < 10
  {
    '0' + d as char
  }

  /** Python's `str(n)`. */
  function Digits(n: nat): (s: string) {
    if n < 10 then [Digit(n)] else Digits(n / 10) + [Digit(n % 10)]
  }

  lemma {:induction false} DigitsPlain(n: nat)
    ensures Plain(Digits(n))
  {
    if n >= 10 { DigitsPlain(n / 10); }
  }

  lemma {:induction false} DigitsInjective(m: nat, n: nat)
    requires Digits(m) == Digits(n)
    ensures m == n
  {
    var a, b := Digits(m), Digits(n);
    DigitsPlain(m / 10);
    DigitsPlain(n / 10);
    assert a[|a| - 1] == Digit(m % 10) && b[|b| - 1] == Digit(n % 10);
    assert m % 10 == n % 10;
    if m >= 10 && n >= 10 {
      assert a[..|a| - 1] == Digits(m / 10) && b[..|b| - 1] == Digits(n / 10);
      DigitsInjective(m / 10, n / 10);
    }
  }

  // ----- lines of the file

  /** Reading text turns `\r\n` and a lone `\r` into `\n`. */
  function Normalised(s: string): (r: string)
    ensures '\r' !in r
  {
    if s == "" then ""
    else if s[0] != '\r' then [s[0]] + Normalised(s[1..])
    else "\n" + Normalised(if |s| > 1 && s[1] == '\n' then s[2..] else s[1..])
  }

  function NonEmpty(parts: seq<string>): (r: seq<string>)
    ensures forall k :: 0 <= k < |r| ==> r[k] != "" && r[k] in parts
  {
    if parts == [] then []
    else if parts[0] == "" then NonEmpty(parts[1..])
    else [parts[0]] + NonEmpty(parts[1..])
  }

  /** `entries` of a file's text. */
  function Lines(text: string): (lines: seq<string>) {
    NonEmpty(Split(Normalised(text), '\n'))
  }

  predicate Ended(text: string) {
    text == "" || text[|text| - 1] == '\n'
  }

  lemma {:induction false} NormalisedConcat(a: string, b: string)
    requires a == "" || a[|a| - 1] != '\r'
    ensures Normalised(a + b) == Normalised(a) + Normalised(b)
    decreases |a|
  {
    if a == "" {
      assert a + b == b;
    } else {
      var skip := if a[0] == '\r' && |a| > 1 && a[1] == '\n' then 2 else 1;
      assert (a + b)[0] == a[0] && (a + b)[skip..] == a[skip..] + b;
      if |a| > 1 {
        assert (a + b)[1] == a[1];
      }
      NormalisedConcat(a[skip..], b);
    }
  }

  lemma {:induction false} NormalisedPlain(a: string)
    requires '\r' !in a
    ensures Normalised(a) == a
  {
    if a != "" {
      assert a == [a[0]] + a[1..];
      NormalisedPlain(a[1..]);
    }
  }

  lemma {:induction false} NormalisedEnded(a: string)
    requires a != "" && a[|a| - 1] == '\n'
    ensures Normalised(a) != "" && Normalised(a)[|Normalised(a)| - 1] == '\n'
    decreases |a|
  {
    var skip := if a[0] == '\r' && |a| > 1 && a[1] == '\n' then 2 else 1;
    if |a| > skip {
      NormalisedEnded(a[skip..]);
    } else {
      assert a[skip..] == "";
    }
  }

  lemma {:induction false} NonEmptyConcat(a: seq<string>, b: seq<string>)
    ensures NonEmpty(a + b) == NonEmpty(a) + NonEmpty(b)
  {
    if a == [] {
      assert a + b == b;
    } else {
      assert (a + b)[1..] == a[1..] + b;
      NonEmptyConcat(a[1..], b);
    }
  }

  /** What is written after a line's end adds its own lines and changes none. */
  lemma LinesConcat(text: string, more: string)
    requires Ended(text)
    ensures Lines(text + more) == Lines(text) + Lines(more)
  {
    if text == "" {
      assert text + more == more;
      assert Lines("") == NonEmpty([""]);
    } else {
      NormalisedConcat(text, more);
      NormalisedEnded(text);
      var x := Normalised(text)[..|Normalised(text)| - 1];
      assert Normalised(text) == x + ['\n'];
      LinesOfNormalised(x, Normalised(text), Normalised(more));
    }
  }

  lemma LinesOfNormalised(x: string, a: string, b: string)
    requires a == x + ['\n']
    ensures NonEmpty(Split(a + b, '\n')) == NonEmpty(Split(a, '\n')) + NonEmpty(Split(b, '\n'))
  {
    NonEmptyEnded(x, b);
    NonEmptyAtEnd(x, a, "");
  }

  lemma NonEmptyAtEnd(x: string, a: string, none: string)
    requires a == x + ['\n'] && none == ""
    ensures NonEmpty(Split(a, '\n')) == NonEmpty(Split(x, '\n'))
  {
    assert a == x + ['\n'] + none;
    NonEmptyEnded(x, none);
  }

  lemma NonEmptyEnded(x: string, b: string)
    ensures NonEmpty(Split(x + ['\n'] + b, '\n')) == NonEmpty(Split(x, '\n')) + NonEmpty(Split(b, '\n'))
  {
    SplitConcat(x, b, '\n');
    NonEmptyConcat(Split(x, '\n'), Split(b, '\n'));
  }

  lemma LineOfItself(line: string)
    requires line != "" && '\n' !in line && '\r' !in line
    ensures Lines(line + "\n") == [line]
  {
    NormalisedPlain(line + "\n");
    assert line + "\n" == line + ['\n'] + "";
    SplitConcat(line, "", '\n');
    SplitPlain(line, '\n');
    NonEmptyConcat([line], [""]);
    assert NonEmpty([line]) == [line] + NonEmpty([]);
  }

  /** A carriage return cuts a line in two. */
  lemma LineCut(a: string, b: string)
    requires a != "" && '\n' !in a && '\r' !in a
    ensures Lines(a + "\r" + b) != [] && Lines(a + "\r" + b)[0] == a
  {
    var rest := "\r" + b;
    assert a + "\r" + b == a + rest;
    NormalisedConcat(a, rest);
    NormalisedPlain(a);
    var tail := Normalised(rest)[1..];
    assert Normalised(rest) == "\n" + tail;
    assert a + Normalised(rest) == a + ['\n'] + tail;
    SplitConcat(a, tail, '\n');
    SplitPlain(a, '\n');
    NonEmptyConcat([a], Split(tail, '\n'));
  }

  // ----- the chain

  function Head(c: Crypto, lines: seq<string>): string {
    if lines == [] then c.Genesis() else c.sha(lines[|lines| - 1])
  }

  predicate BreaksAt(c: Crypto, lines: seq<string>, i: nat)
    requires i < |lines|
  {
    var fields := Split(lines[i], '\t');
    |fields| != 9 || fields[0] != Digits(i) || fields[7] != Head(c, lines[..i])
  }

  predicate UnsignedAt(c: Crypto, lines: seq<string>, i: nat)
    requires i < |lines|
  {
    var fields := Split(lines[i], '\t');
    !BreaksAt(c, lines, i) && !c.signed("custos-v1\t" + Join(fields[..8], '\t'), fields[8])
  }

  /** `verify`'s two counters. */
  function BadChain(c: Crypto, lines: seq<string>): nat {
    if lines == [] then 0
    else
      BadChain(c, lines[..|lines| - 1]) + if BreaksAt(c, lines, |lines| - 1) then 1 else 0
  }

  function BadSignature(c: Crypto, lines: seq<string>): nat {
    if lines == [] then 0
    else
      BadSignature(c, lines[..|lines| - 1]) + if UnsignedAt(c, lines, |lines| - 1) then 1 else 0
  }

  lemma BreaksInPrefix(c: Crypto, lines: seq<string>, n: nat, i: nat)
    requires i < n <= |lines|
    ensures BreaksAt(c, lines[..n], i) == BreaksAt(c, lines, i)
    ensures UnsignedAt(c, lines[..n], i) == UnsignedAt(c, lines, i)
  {
    assert lines[..n][..i] == lines[..i];
  }

  lemma {:induction false} NoBadChain(c: Crypto, lines: seq<string>)
    ensures BadChain(c, lines) == 0 <==> forall i :: 0 <= i < |lines| ==> !BreaksAt(c, lines, i)
  {
    if lines != [] {
      var last := |lines| - 1;
      NoBadChain(c, lines[..last]);
      forall i | 0 <= i < last ensures BreaksAt(c, lines[..last], i) == BreaksAt(c, lines, i) {
        BreaksInPrefix(c, lines, last, i);
      }
    }
  }

  lemma {:induction false} NoBadSignature(c: Crypto, lines: seq<string>)
    ensures BadSignature(c, lines) == 0 <==> forall i :: 0 <= i < |lines| ==> !UnsignedAt(c, lines, i)
  {
    if lines != [] {
      var last := |lines| - 1;
      NoBadSignature(c, lines[..last]);
      forall i | 0 <= i < last ensures UnsignedAt(c, lines[..last], i) == UnsignedAt(c, lines, i) {
        BreaksInPrefix(c, lines, last, i);
      }
    }
  }

  lemma LastOfWhole(c: Crypto, lines: seq<string>)
    requires lines != [] && BadChain(c, lines) == 0
    ensures var i := |lines| - 1;
            && var fields := Split(lines[i], '\t');
            && |fields| == 9 && fields[0] == Digits(i) && fields[7] == Head(c, lines[..i])
            && BadChain(c, lines[..i]) == 0 && lines == lines[..i] + [lines[i]]
  {
    assert !BreaksAt(c, lines, |lines| - 1);
  }

  /** Two whole ledgers with one head are one ledger, line by line. */
  lemma {:induction false} HeadFixesLedger(c: Crypto, a: seq<string>, b: seq<string>)
    requires c.Good() && a != [] && b != []
    requires BadChain(c, a) == 0 && BadChain(c, b) == 0
    requires Head(c, a) == Head(c, b)
    ensures a == b
    decreases |a|
  {
    var i, j := |a| - 1, |b| - 1;
    LastOfWhole(c, a);
    LastOfWhole(c, b);
    assert a[i] == b[j];
    DigitsInjective(i, j);
    if i > 0 {
      HeadFixesLedger(c, a[..i], b[..i]);
    }
  }

  /** So any other ledger with the same last line is seen to be broken: changing, dropping, adding or
      swapping earlier lines never goes unnoticed. */
  lemma TamperingShows(c: Crypto, lines: seq<string>, tampered: seq<string>)
    requires c.Good() && lines != [] && BadChain(c, lines) == 0
    requires tampered != [] && tampered != lines && tampered[|tampered| - 1] == lines[|lines| - 1]
    ensures BadChain(c, tampered) > 0
  {
    if BadChain(c, tampered) == 0 {
      HeadFixesLedger(c, lines, tampered);
    }
  }

  // ----- one more line

  /** The eight fields that are signed. */
  function SignedFields(c: Crypto, count: nat, now: nat, action: string, id: string, canonical: string, prev: string)
    : (fields: seq<string>)
    ensures |fields| == 8
  {
    [Digits(count), Digits(now), action, id, "-", c.sha(canonical), Digits(|canonical|), prev]
  }

  function Line(c: Crypto, fields: seq<string>): string {
    Join(fields + [c.sign("custos-v1\t" + Join(fields, '\t'))], '\t')
  }

  /** The line `append` writes after `lines`. */
  function NextLine(c: Crypto, lines: seq<string>, now: nat, action: string, id: string, canonical: string): string {
    Line(c, SignedFields(c, |lines|, now, action, id, canonical, Head(c, lines)))
  }

  /** What a line is made of, field by field: its number, the time, the action, the receipt's id, a dash, the
      digest and the length of the receipt's bytes, the digest of the line before, and a signature of these. */
  ghost predicate IsEntry(c: Crypto, lines: seq<string>, now: nat, action: string, id: string, canonical: string, line: string) {
    var fields := Split(line, '\t');
    && |fields| == 9
    && fields[0] == Digits(|lines|) && fields[1] == Digits(now) && fields[2] == action && fields[3] == id && fields[4] == "-"
    && fields[5] == c.sha(canonical) && fields[6] == Digits(|canonical|)
    && fields[7] == c.sha(if lines == [] then "custos-genesis-v1" else lines[|lines| - 1])
    && c.signed("custos-v1\t" + Join(fields[..8], '\t'), fields[8])
  }

  lemma NextLineIsEntry(c: Crypto, lines: seq<string>, now: nat, action: string, id: string, canonical: string)
    requires c.Good() && FieldValid(action) && FieldValid(id)
    ensures IsEntry(c, lines, now, action, id, canonical, NextLine(c, lines, now, action, id, canonical))
  {
    var fields := SignedFields(c, |lines|, now, action, id, canonical, Head(c, lines));
    NextFields(c, lines, now, action, id, canonical);
    LineFields(c, fields);
    var all := Split(Line(c, fields), '\t');
    assert forall k :: 0 <= k < 8 ==> all[k] == all[..8][k] == fields[k];
  }

  /** So a line fixes what it records, the receipt's bytes among it. */
  lemma EntryFixesReceipt(c: Crypto, lines: seq<string>, now: nat, action: string, id: string, canonical: string,
                          others: seq<string>, then_: nat, doing: string, of: string, bytes: string, line: string)
    requires c.Good() && IsEntry(c, lines, now, action, id, canonical, line) && IsEntry(c, others, then_, doing, of, bytes, line)
    ensures |lines| == |others| && now == then_ && action == doing && id == of && canonical == bytes
  {
    DigitsInjective(|lines|, |others|);
    DigitsInjective(now, then_);
  }

  predicate FieldValid(s: string) {
    '\t' !in s && '\n' !in s
  }

  predicate NoReturn(s: string) {
    '\r' !in s
  }

  lemma {:induction false} JoinOmits(parts: seq<string>, sep: char, x: char)
    requires x != sep && forall k :: 0 <= k < |parts| ==> x !in parts[k]
    ensures x !in Join(parts, sep)
  {
    if |parts| > 1 {
      JoinOmits(parts[1..], sep, x);
    }
  }

  lemma {:induction false} JoinHolds(parts: seq<string>, sep: char, k: nat, x: char)
    requires k < |parts| && x in parts[k]
    ensures x in Join(parts, sep)
  {
    if |parts| > 1 && k > 0 {
      JoinHolds(parts[1..], sep, k - 1, x);
    }
  }

  lemma {:induction false} JoinConcat(a: seq<string>, b: seq<string>, sep: char)
    requires a != [] && b != []
    ensures Join(a + b, sep) == Join(a, sep) + [sep] + Join(b, sep)
  {
    if |a| == 1 {
      assert (a + b)[1..] == b;
    } else {
      assert (a + b)[1..] == a[1..] + b;
      JoinConcat(a[1..], b, sep);
    }
  }

  lemma {:induction false} SplitOfPrefix(s: string, n: nat, sep: char)
    requires n <= |s|
    ensures |Split(s[..n], sep)| <= |Split(s, sep)|
  {
    if n > 0 {
      SplitOfPrefix(s[1..], n - 1, sep);
      assert s[..n][1..] == s[1..][..n - 1];
      SplitStep(s[..n], sep);
    }
  }

  /** The fields of the next line: only the action and the receipt's id can hold anything odd. */
  lemma NextFields(c: Crypto, lines: seq<string>, now: nat, action: string, id: string, canonical: string)
    requires c.Good()
    ensures var fields := SignedFields(c, |lines|, now, action, id, canonical, Head(c, lines));
            && ((forall k :: 0 <= k < 8 ==> FieldValid(fields[k])) <==> FieldValid(action) && FieldValid(id))
            && (NoReturn(action) && NoReturn(id) ==> forall k :: 0 <= k < 8 ==> NoReturn(fields[k]))
            && Plain(fields[0])
  {
    var fields := SignedFields(c, |lines|, now, action, id, canonical, Head(c, lines));
    DigitsPlain(|lines|);
    DigitsPlain(now);
    DigitsPlain(|canonical|);
    assert Plain("-") && Plain(c.sha(canonical)) && Plain(Head(c, lines));
    assert fields[2] == action && fields[3] == id;
  }

  /** The next line, taken apart: nine fields, the last a signature of the others. */
  lemma LineFields(c: Crypto, fields: seq<string>)
    requires c.Good() && |fields| == 8 && forall k :: 0 <= k < 8 ==> FieldValid(fields[k])
    ensures var line := Line(c, fields);
            && var all := Split(line, '\t');
            && |all| == 9 && all[..8] == fields
            && c.signed("custos-v1\t" + Join(all[..8], '\t'), all[8])
            && '\n' !in line && line != ""
            && ((forall k :: 0 <= k < 8 ==> NoReturn(fields[k])) ==> NoReturn(line))
  {
    var signature := c.sign("custos-v1\t" + Join(fields, '\t'));
    var all := fields + [signature];
    assert Plain(signature);
    SplitJoin(all, '\t');
    JoinOmits(all, '\t', '\n');
    if forall k :: 0 <= k < 8 ==> NoReturn(fields[k]) {
      forall k | 0 <= k < 9 ensures '\r' !in all[k] {
        if k < 8 { assert NoReturn(fields[k]); }
      }
      JoinOmits(all, '\t', '\r');
    }
  }

  /** A line without a carriage return is read back as written, and keeps a whole ledger whole. */
  lemma GoodAppend(c: Crypto, text: string, now: nat, action: string, id: string, canonical: string)
    requires c.Good() && Ended(text) && FieldValid(action) && FieldValid(id)
    requires NoReturn(action) && NoReturn(id)
    ensures var lines := Lines(text);
            && var line := NextLine(c, lines, now, action, id, canonical);
            && var more := Lines(text + (line + "\n"));
            && more == lines + [line]
            && BadChain(c, more) == BadChain(c, lines) && BadSignature(c, more) == BadSignature(c, lines)
            && |Split(line, '\t')| == 9 && Split(line, '\t')[3] == id
  {
    var lines := Lines(text);
    var line := NextLine(c, lines, now, action, id, canonical);
    var fields := SignedFields(c, |lines|, now, action, id, canonical, Head(c, lines));
    NextFields(c, lines, now, action, id, canonical);
    LineFields(c, fields);
    LinesConcat(text, line + "\n");
    LineOfItself(line);
    LineExtends(c, lines, line, fields);
  }

  lemma LineExtends(c: Crypto, lines: seq<string>, line: string, fields: seq<string>)
    requires |Split(line, '\t')| == 9 && Split(line, '\t')[..8] == fields
    requires c.signed("custos-v1\t" + Join(fields, '\t'), Split(line, '\t')[8])
    requires fields[0] == Digits(|lines|) && fields[7] == Head(c, lines)
    ensures BadChain(c, lines + [line]) == BadChain(c, lines)
    ensures BadSignature(c, lines + [line]) == BadSignature(c, lines)
    ensures Split(line, '\t')[3] == fields[3]
  {
    var more := lines + [line];
    assert more[..|lines|] == lines;
    assert !BreaksAt(c, more, |lines|);
    assert !UnsignedAt(c, more, |lines|);
  }

  /** A carriage return in the action or the receipt's id is accepted as a field, and breaks the
      ledger it is written to. */
  lemma ReturnBreaksChain(c: Crypto, text: string, now: nat, action: string, id: string, canonical: string)
    requires c.Good() && Ended(text) && FieldValid(action) && FieldValid(id)
    requires !NoReturn(action) || !NoReturn(id)
    ensures var line := NextLine(c, Lines(text), now, action, id, canonical);
            && var more := Lines(text + (line + "\n"));
            && BadChain(c, more) > 0
            && |more| > |Lines(text)| && more[..|Lines(text)|] == Lines(text)
  {
    var lines := Lines(text);
    var fields := SignedFields(c, |lines|, now, action, id, canonical, Head(c, lines));
    NextFields(c, lines, now, action, id, canonical);
    var line := Line(c, fields);
    var a := CutOfLine(c, fields);
    CutLineBreaks(c, text, line, a);
  }

  lemma CutLineBreaks(c: Crypto, text: string, line: string, a: string)
    requires Ended(text) && |a| < |line| && a == line[..|a|] && line[|a|] == '\r'
    requires a != "" && '\n' !in a && '\r' !in a && |Split(a, '\t')| <= 4
    ensures var more := Lines(text + (line + "\n"));
            BadChain(c, more) > 0 && |more| > |Lines(text)| && more[..|Lines(text)|] == Lines(text)
  {
    var b := line[|a| + 1..] + "\n";
    assert line + "\n" == a + "\r" + b;
    LineCut(a, b);
    LinesConcat(text, line + "\n");
    ShortLineBreaks(c, Lines(text + (line + "\n")), |Lines(text)|);
  }

  lemma ShortLineBreaks(c: Crypto, lines: seq<string>, i: nat)
    requires i < |lines| && |Split(lines[i], '\t')| < 9
    ensures BadChain(c, lines) > 0
  {
    assert BreaksAt(c, lines, i);
    NoBadChain(c, lines);
  }

  /** The part of a line before its first carriage return has too few fields. */
  lemma CutOfLine(c: Crypto, fields: seq<string>) returns (a: string)
    requires c.Good() && |fields| == 8 && forall k :: 0 <= k < 8 ==> FieldValid(fields[k])
    requires Plain(fields[0]) && (!NoReturn(fields[2]) || !NoReturn(fields[3]))
    ensures var line := Line(c, fields);
            && |a| < |line| && a == line[..|a|] && line[|a|] == '\r'
            && a != "" && '\n' !in a && '\r' !in a && |Split(a, '\t')| <= 4
  {
    var line := Line(c, fields);
    var first, last := fields[..4], fields[4..] + [c.sign("custos-v1\t" + Join(fields, '\t'))];
    assert fields + [c.sign("custos-v1\t" + Join(fields, '\t'))] == first + last;
    JoinConcat(first, last, '\t');
    var x := Join(first, '\t');
    JoinHolds(first, '\t', if !NoReturn(fields[2]) then 2 else 3, '\r');
    SplitJoin(first, '\t');
    JoinOmits(first, '\t', '\n');
    var n := FirstReturn(x);
    assert x == fields[0] + ['\t'] + Join(first[1..], '\t');
    assert x[0] == fields[0][0] && fields[0][0] in fields[0];
    a := x[..n];
    SplitOfPrefix(x, n, '\t');
    assert forall k :: 0 <= k < n ==> a[k] == x[k];
    assert forall k :: 0 <= k < |x| ==> line[k] == x[k];
  }

  function FirstReturn(s: string): (n: nat)
    requires '\r' in s
    ensures n < |s| && s[n] == '\r' && forall k :: 0 <= k < n ==> s[k] != '\r'
  {
    if s[0] == '\r' then 0
    else
      assert s == [s[0]] + s[1..];
      1 + FirstReturn(s[1..])
  }

  // ----- the exported copy

  datatype External = Unconfigured | Unavailable | Match | RolledBack | ExportBehind | Mismatch

  function Compare(local: seq<string>, remote: seq<string>): External {
    if remote == local then Match
    else if |local| < |remote| && remote[..|local|] == local then RolledBack
    else if |local| > |remote| && local[..|remote|] == remote then ExportBehind
    else Mismatch
  }

  /** A mismatch is a line both hold and hold differently; a roll-back is exactly a lost tail. */
  lemma CompareMeaning(local: seq<string>, remote: seq<string>)
    ensures Compare(local, remote) == Mismatch <==>
              exists i :: 0 <= i < |local| && i < |remote| && local[i] != remote[i]
    ensures Compare(local, remote) == RolledBack <==> local != remote && local <= remote
    ensures Compare(local, remote) == ExportBehind <==> local != remote && remote <= local
  {
    if Compare(local, remote) == Mismatch {
      if |local| <= |remote| {
        assert local != remote[..|local|];
      } else {
        assert remote != local[..|remote|];
      }
    }
  }

  lemma LinesOfPrefix(exported: string, text: string)
    requires Ended(exported) && exported <= text
    ensures Lines(exported) <= Lines(text)
  {
    assert text == exported + text[|exported|..];
    LinesConcat(exported, text[|exported|..]);
  }

  // ----- receipts

  /** `anchored_receipts`. */
  function Anchored(lines: seq<string>): set<string> {
    set i | 0 <= i < |lines| && |Split(lines[i], '\t')| == 9 :: Split(lines[i], '\t')[3]
  }

  lemma AnchoredMore(lines: seq<string>, line: string)
    ensures Anchored(lines + [line]) ==
              Anchored(lines) + if |Split(line, '\t')| == 9 then {Split(line, '\t')[3]} else {}
  {
    var more := lines + [line];
    forall id | id in Anchored(lines) ensures id in Anchored(more) {
      var i :| 0 <= i < |lines| && |Split(lines[i], '\t')| == 9 && Split(lines[i], '\t')[3] == id;
      assert more[i] == lines[i];
    }
    assert more[|lines|] == line;
  }

  /** A receipt as the store lists it: its id, if it has one, and its canonical bytes, if they can be read. */
  datatype Receipt = Receipt(id: string, canonical: Option<string>)

  /** The receipts `backfill` adds: readable, named, not anchored, the first of each name. */
  function ToAnchor(already: set<string>, receipts: seq<Receipt>): (added: seq<Receipt>)
    decreases |receipts|
  {
    if receipts == [] then []
    else
      var r := receipts[0];
      if r.id == "" || r.id in already || r.canonical.None? then ToAnchor(already, receipts[1..])
      else [r] + ToAnchor(already + {r.id}, receipts[1..])
  }

  function Ids(receipts: seq<Receipt>): set<string> {
    set i | 0 <= i < |receipts| :: receipts[i].id
  }

  /** Each is added once, none that was anchored, and all that could be: a second backfill adds none. */
  lemma {:induction false} BackfillIsComplete(already: set<string>, receipts: seq<Receipt>)
    ensures var added := ToAnchor(already, receipts);
            && (forall i :: 0 <= i < |added| ==> added[i].id !in already && added[i] in receipts && added[i].canonical.Some?)
            && (forall i, j :: 0 <= i < j < |added| ==> added[i].id != added[j].id)
            && (forall r :: r in receipts && r.id != "" && r.canonical.Some? ==> r.id in already + Ids(added))
            && ToAnchor(already + Ids(added), receipts) == []
    decreases |receipts|
  {
    if receipts == [] {
    } else {
      var r, rest := receipts[0], receipts[1..];
      assert receipts == [r] + rest;
      if r.id == "" || r.id in already || r.canonical.None? {
        BackfillIsComplete(already, rest);
      } else {
        BackfillIsComplete(already + {r.id}, rest);
        var more := ToAnchor(already + {r.id}, rest);
        var added := [r] + more;
        IdsStep(r, more);
        assert already + Ids(added) == already + {r.id} + Ids(more);
      }
    }
  }

  lemma IdsStep(r: Receipt, more: seq<Receipt>)
    ensures Ids([r] + more) == {r.id} + Ids(more)
  {
    var all := [r] + more;
    forall id | id in Ids(more) ensures id in Ids(all) {
      var i :| 0 <= i < |more| && more[i].id == id;
      assert all[i + 1].id == id;
    }
    assert all[0].id == r.id;
  }

  // ----- the ledger

  /** Where an export can fail: before the ledger's copy is replaced, or after. */
  datatype ExportFault = NoFault | BeforeLedger | AfterLedger

  datatype ExportState = NotConfigured | Failed | Exported

  datatype Appended = Appended(seqno: nat, head: string, copy: ExportState)

  datatype State = Empty | Whole | Broken

  datatype Report = Report(state: State, entries: nat, head: string, badChain: nat, badSignature: nat,
                           unanchored: nat, external: External)

  class AnchorLedger {
    const c: Crypto
    const exportConfigured: bool
    var keys: bool
    var ledger: Option<string>
    var exported: Option<string>

    constructor (c: Crypto, exportConfigured: bool)
      ensures this.c == c && this.exportConfigured == exportConfigured
      ensures !keys && ledger == None && exported == None && Valid()
    {
      this.c := c;
      this.exportConfigured := exportConfigured;
      keys := false;
      ledger := None;
      exported := None;
    }

    function Content(): string
      reads this`ledger
    {
      if ledger.Some? then ledger.value else ""
    }

    function Entries(): seq<string>
      reads this`ledger
    {
      Lines(Content())
    }

    /** What every run of this code keeps, whatever exports fail: the copy is an earlier ledger. */
    ghost predicate Valid()
      reads this
    {
      && Ended(Content())
      && (exported.Some? ==> Ended(exported.value) && exported.value <= Content())
    }

    /** `export`. */
    method Export(fault: ExportFault) returns (state: ExportState)
      requires Valid()
      modifies this`exported
      ensures Valid()
      ensures exported == if exportConfigured && fault != BeforeLedger && ledger.Some? then ledger else old(exported)
      ensures state == if !exportConfigured then NotConfigured else if fault == NoFault then Exported else Failed
    {
      if !exportConfigured {
        return NotConfigured;
      }
      if fault == BeforeLedger {
        return Failed;
      }
      if ledger.Some? {
        exported := ledger;
      }
      return if fault == AfterLedger then Failed else Exported;
    }

    /** Whether every field can stand between tabs in a line. */
    static method FieldsAreValid(fields: seq<string>) returns (valid: bool)
      ensures valid <==> forall k :: 0 <= k < |fields| ==> FieldValid(fields[k])
    {
      for k := 0 to |fields|
        invariant forall j :: 0 <= j < k ==> FieldValid(fields[j])
      {
        if !FieldValid(fields[k]) {
          return false;
        }
      }
      return true;
    }

    /** `append`. A line is written or nothing is; a written one keeps the ledger whole exactly when
        neither the action nor the id holds a carriage return. */
    method Append(now: nat, action: string, id: string, canonical: string, keySafe: bool, fault: ExportFault)
        returns (r: Result<Appended>)
      requires c.Good() && Valid()
      modifies this
      ensures Valid() && keys
      ensures r.Ok? <==> FieldValid(action) && FieldValid(id) && keySafe
      ensures r.Refused? ==> ledger == old(ledger) && exported == old(exported)
      ensures r.Refused? ==>
                r.code == if FieldValid(action) && FieldValid(id) then "UNSAFE_ANCHOR_KEY" else "ANCHOR_FIELD_INVALID"
      ensures r.Ok? ==>
                var line := NextLine(c, old(Entries()), now, action, id, canonical);
                && ledger == Some(old(Content()) + (line + "\n"))
                && r.value.seqno == |old(Entries())| && r.value.head == c.sha(line)
                && (r.value.copy == Exported ==> exported == ledger)
                && IsEntry(c, old(Entries()), now, action, id, canonical, line)
                && Follows(c, old(Entries()), Entries(), line, action, id)
    {
      keys := true;
      var lines := Entries();
      var fields := SignedFields(c, |lines|, now, action, id, canonical, Head(c, lines));
      NextFields(c, lines, now, action, id, canonical);
      var valid := FieldsAreValid(fields);
      if !valid {
        return Refused("ANCHOR_FIELD_INVALID");
      }
      assert FieldValid(fields[2]) && FieldValid(fields[3]);
      if !keySafe {
        return Refused("UNSAFE_ANCHOR_KEY");
      }
      var line := Write(fields, now, action, id, canonical);
      var state := Export(fault);
      return Ok(Appended(|lines|, c.sha(line), state));
    }

    method Write(fields: seq<string>, ghost now: nat, ghost action: string, ghost id: string, ghost canonical: string)
        returns (line: string)
      requires c.Good() && Valid() && FieldValid(action) && FieldValid(id)
      requires fields == SignedFields(c, |Entries()|, now, action, id, canonical, Head(c, Entries()))
      modifies this`ledger
      ensures Valid()
      ensures line == NextLine(c, old(Entries()), now, action, id, canonical)
      ensures IsEntry(c, old(Entries()), now, action, id, canonical, line)
      ensures ledger == Some(old(Content()) + (line + "\n"))
      ensures Follows(c, old(Entries()), Entries(), line, action, id)
    {
      line := Line(c, fields);
      NextLineIsEntry(c, Entries(), now, action, id, canonical);
      Extended(c, Content(), now, action, id, canonical);
      ledger := Some(Content() + (line + "\n"));
    }

    /** `_external_check`: in a run of this code a readable copy is the ledger, or an earlier one. */
    method ExternalCheck(readable: bool) returns (state: External)
      ensures state == if !exportConfigured then Unconfigured
                       else if exported.None? || !readable then Unavailable
                       else Compare(Entries(), Lines(exported.value))
      ensures Valid() && exportConfigured && exported.Some? && readable ==> state == Match || state == ExportBehind
    {
      if !exportConfigured {
        return Unconfigured;
      }
      if exported.None? || !readable {
        return Unavailable;
      }
      var remote := Lines(exported.value);
      var local := Entries();
      if Valid() {
        LinesOfPrefix(exported.value, Content());
        CompareMeaning(local, remote);
      }
      return Compare(local, remote);
    }

    /** `verify`. Whole means every line is linked and signed. */
    method Verify(receiptsKnown: nat, readable: bool) returns (report: Report)
      ensures report.entries == |Entries()| && report.head == Head(c, Entries())
      ensures keys ==> report.badChain == BadChain(c, Entries()) && report.badSignature == BadSignature(c, Entries())
      ensures report.state == Empty <==> Entries() == []
      ensures report.state == Whole <==>
                && keys && Entries() != []
                && forall i :: 0 <= i < |Entries()| ==> !BreaksAt(c, Entries(), i) && !UnsignedAt(c, Entries(), i)
      ensures report.unanchored ==
                if receiptsKnown > |Anchored(Entries())| then receiptsKnown - |Anchored(Entries())| else 0
      ensures Valid() && exportConfigured && exported.Some? && readable ==>
                report.external == Match || report.external == ExportBehind
    {
      var lines := Entries();
      var badChain, badSignature := 0, 0;
      var state := if lines == [] then Empty else Whole;
      if lines != [] && !keys {
        state := Broken;
      } else if lines != [] {
        badChain, badSignature := CountBad(lines);
        NoBadChain(c, lines);
        NoBadSignature(c, lines);
        if badChain > 0 || badSignature > 0 {
          state := Broken;
        }
      }
      var anchored := |Anchored(lines)|;
      var unanchored := if receiptsKnown > anchored then receiptsKnown - anchored else 0;
      var external := ExternalCheck(readable);
      return Report(state, |lines|, Head(c, lines), badChain, badSignature, unanchored, external);
    }

    method CountBad(lines: seq<string>) returns (badChain: nat, badSignature: nat)
      ensures badChain == BadChain(c, lines) && badSignature == BadSignature(c, lines)
    {
      badChain, badSignature := 0, 0;
      var expectedPrev := c.Genesis();
      for i := 0 to |lines|
        invariant expectedPrev == Head(c, lines[..i])
        invariant badChain == BadChain(c, lines[..i]) && badSignature == BadSignature(c, lines[..i])
      {
        BreaksInPrefix(c, lines, i + 1, i);
        assert lines[..i + 1][..i] == lines[..i];
        var fields := Split(lines[i], '\t');
        if |fields| != 9 || fields[0] != Digits(i) || fields[7] != expectedPrev {
          badChain := badChain + 1;
        } else if !c.signed("custos-v1\t" + Join(fields[..8], '\t'), fields[8]) {
          badSignature := badSignature + 1;
        }
        expectedPrev := c.sha(lines[i]);
      }
      assert lines[..|lines|] == lines;
    }

    method BackfillOne(now: nat, r: Receipt, canonical: string, keySafe: bool, fault: ExportFault, ghost plain: bool,
                       ghost before: seq<string>, ghost already: set<string>, ghost done: seq<Receipt>,
                       ghost rest: seq<Receipt>, ghost wanted: seq<Receipt>)
        returns (appended: Result<Appended>)
      requires c.Good() && Valid() && (plain ==> NoReturn(r.id))
      requires r.id != "" && r.id !in already && r.canonical.Some?
      requires InBackfill(c, plain, before, Entries(), already, done, [r] + rest, wanted, keySafe)
      modifies this
      ensures Valid()
      ensures appended.Ok? <==> keySafe && FieldValid(r.id)
      ensures appended.Refused? ==> Entries() == old(Entries()) && r in wanted
      ensures appended.Ok? ==> InBackfill(c, plain, before, Entries(), already + {r.id}, done + [r], rest, wanted, keySafe)
    {
      ghost var entries := Entries();
      WantedNow(c, plain, before, entries, already, done, r, rest, wanted, keySafe);
      appended := Append(now, BACKFILL, r.id, canonical, keySafe, fault);
      if appended.Ok? {
        BackfillStep(c, plain, before, entries, Entries(), already, done, r, rest, wanted, keySafe,
                     NextLine(c, entries, now, BACKFILL, r.id, canonical));
      }
    }

    /** `backfill`: anchors what `ToAnchor` lists, in order, and so leaves nothing for a second call. */
    method Backfill(receipts: seq<Receipt>, clock: nat -> nat, fault: nat -> ExportFault, keySafe: bool)
        returns (added: Result<nat>)
      requires c.Good() && Valid()
      modifies this
      ensures Valid() && old(Entries()) <= Entries()
      ensures var wanted := ToAnchor(Anchored(old(Entries())), receipts);
              && (added.Ok? <==> (wanted == [] || keySafe) && AllValid(wanted))
              && (added.Ok? ==> added.value == |wanted|)
      ensures NoReturns(receipts) ==> BadChain(c, Entries()) == BadChain(c, old(Entries()))
      ensures NoReturns(receipts) && added.Ok? ==> Complete(old(Entries()), Entries(), receipts)
    {
      var already := Anchored(Entries());
      var n := 0;
      ghost var plain := NoReturns(receipts);
      ghost var before := Entries();
      ghost var wanted := ToAnchor(already, receipts);
      ghost var done: seq<Receipt> := [];
      assert receipts[0..] == receipts;
      BackfillStart(c, plain, before, already, receipts, wanted, keySafe);
      for k := 0 to |receipts|
        invariant Valid() && n == |done|
        invariant InBackfill(c, plain, before, Entries(), already, done, receipts[k..], wanted, keySafe)
      {
        var r := receipts[k];
        TailFrom(receipts, k);
        if r.id == "" || r.id in already || r.canonical.None? {
          WantedSkip(c, plain, before, Entries(), already, done, r, receipts[k + 1..], wanted, keySafe);
          continue;
        }
        var appended := BackfillOne(clock(k), r, r.canonical.value, keySafe, fault(k), plain, before,
                                    already, done, receipts[k + 1..], wanted);
        if appended.Refused? {
          return Refused(appended.code);
        }
        already := already + {r.id};
        n := n + 1;
        done := done + [r];
      }
      WantedDone(c, plain, before, Entries(), already, done, receipts[|receipts|..], wanted, keySafe);
      NothingLeft(c, plain, before, Entries(), already, wanted, receipts, keySafe);
      return Ok(n);
    }
  }

  /** What an appended line makes of the entries. */
  ghost predicate Follows(c: Crypto, lines: seq<string>, more: seq<string>, line: string, action: string, id: string) {
    && lines <= more
    && (!(NoReturn(action) && NoReturn(id)) ==> BadChain(c, more) > 0)
    && (NoReturn(action) && NoReturn(id) ==>
          && more == lines + [line]
          && BadChain(c, more) == BadChain(c, lines) && BadSignature(c, more) == BadSignature(c, lines)
          && Anchored(more) == Anchored(lines) + {id})
  }

  ghost predicate Backfilled(c: Crypto, before: seq<string>, now: seq<string>, done: seq<Receipt>) {
    && before <= now && |now| == |before| + |done| && BadChain(c, now) == BadChain(c, before)
    && Anchored(now) == Anchored(before) + Ids(done)
  }

  ghost predicate AllValid(receipts: seq<Receipt>) {
    forall r :: r in receipts ==> FieldValid(r.id)
  }

  const BACKFILL := "backfill"

  ghost predicate NoReturns(receipts: seq<Receipt>) {
    forall r :: r in receipts ==> NoReturn(r.id)
  }

  /** All that could be anchored is, once each, and a second call would add nothing. */
  ghost predicate Complete(before: seq<string>, after: seq<string>, receipts: seq<Receipt>) {
    var wanted := ToAnchor(Anchored(before), receipts);
    && |after| == |before| + |wanted|
    && Anchored(after) == Anchored(before) + Ids(wanted)
    && ToAnchor(Anchored(after), receipts) == []
  }

  ghost predicate InBackfill(c: Crypto, plain: bool, before: seq<string>, now: seq<string>, already: set<string>,
                             done: seq<Receipt>, rest: seq<Receipt>, wanted: seq<Receipt>, keySafe: bool)
  {
    && before <= now && done + ToAnchor(already, rest) == wanted
    && (done == [] || keySafe) && AllValid(done)
    && (plain ==> Backfilled(c, before, now, done) && already == Anchored(now))
  }

  lemma BackfillStart(c: Crypto, plain: bool, before: seq<string>, already: set<string>, receipts: seq<Receipt>,
                      wanted: seq<Receipt>, keySafe: bool)
    requires already == Anchored(before) && wanted == ToAnchor(already, receipts)
    ensures InBackfill(c, plain, before, before, already, [], receipts, wanted, keySafe)
  {
    assert [] + ToAnchor(already, receipts) == wanted;
    assert Ids([]) == {};
  }

  lemma TailFrom(receipts: seq<Receipt>, k: nat)
    requires k < |receipts|
    ensures receipts[k..] == [receipts[k]] + receipts[k + 1..]
  {
  }

  lemma WantedSkip(c: Crypto, plain: bool, before: seq<string>, now: seq<string>, already: set<string>, done: seq<Receipt>,
                   r: Receipt, rest: seq<Receipt>, wanted: seq<Receipt>, keySafe: bool)
    requires InBackfill(c, plain, before, now, already, done, [r] + rest, wanted, keySafe)
    requires r.id == "" || r.id in already || r.canonical.None?
    ensures InBackfill(c, plain, before, now, already, done, rest, wanted, keySafe)
  {
    assert ([r] + rest)[1..] == rest;
  }

  lemma WantedDone(c: Crypto, plain: bool, before: seq<string>, now: seq<string>, already: set<string>, done: seq<Receipt>,
                   rest: seq<Receipt>, wanted: seq<Receipt>, keySafe: bool)
    requires InBackfill(c, plain, before, now, already, done, rest, wanted, keySafe) && rest == []
    ensures done == wanted
  {
  }

  lemma NothingLeft(c: Crypto, plain: bool, before: seq<string>, now: seq<string>, already: set<string>,
                    wanted: seq<Receipt>, receipts: seq<Receipt>, keySafe: bool)
    requires InBackfill(c, plain, before, now, already, wanted, [], wanted, keySafe)
    requires wanted == ToAnchor(Anchored(before), receipts)
    ensures plain ==> Complete(before, now, receipts)
    ensures (wanted == [] || keySafe) && AllValid(wanted)
  {
    BackfillIsComplete(Anchored(before), receipts);
  }

  lemma WantedNow(c: Crypto, plain: bool, before: seq<string>, now: seq<string>, already: set<string>, done: seq<Receipt>,
                  r: Receipt, rest: seq<Receipt>, wanted: seq<Receipt>, keySafe: bool)
    requires InBackfill(c, plain, before, now, already, done, [r] + rest, wanted, keySafe)
    requires r.id != "" && r.id !in already && r.canonical.Some?
    ensures r in wanted && FieldValid(BACKFILL) && NoReturn(BACKFILL)
  {
    assert ToAnchor(already, [r] + rest)[0] == r;
    assert wanted[|done|] == r;
  }

  lemma BackfillStep(c: Crypto, plain: bool, before: seq<string>, now: seq<string>, next: seq<string>, already: set<string>,
                     done: seq<Receipt>, r: Receipt, rest: seq<Receipt>, wanted: seq<Receipt>, keySafe: bool, line: string)
    requires InBackfill(c, plain, before, now, already, done, [r] + rest, wanted, keySafe)
    requires r.id != "" && r.id !in already && r.canonical.Some?
    requires keySafe && FieldValid(r.id) && (plain ==> NoReturn(r.id))
    requires Follows(c, now, next, line, BACKFILL, r.id)
    ensures InBackfill(c, plain, before, next, already + {r.id}, done + [r], rest, wanted, keySafe)
  {
    if plain { StepAnchors(c, before, now, next, done, r, line); }
    StepDraws(already, done, r, rest, wanted);
  }

  lemma StepDraws(already: set<string>, done: seq<Receipt>, r: Receipt, rest: seq<Receipt>, wanted: seq<Receipt>)
    requires done + ToAnchor(already, [r] + rest) == wanted
    requires r.id != "" && r.id !in already && r.canonical.Some?
    ensures done + [r] + ToAnchor(already + {r.id}, rest) == wanted
  {
    FirstDrawn(already, r, rest);
    Regroup(done, r, ToAnchor(already + {r.id}, rest));
  }

  lemma FirstDrawn(already: set<string>, r: Receipt, rest: seq<Receipt>)
    requires r.id != "" && r.id !in already && r.canonical.Some?
    ensures ToAnchor(already, [r] + rest) == [r] + ToAnchor(already + {r.id}, rest)
  {
    assert ([r] + rest)[1..] == rest;
  }

  lemma Regroup(done: seq<Receipt>, r: Receipt, more: seq<Receipt>)
    ensures done + ([r] + more) == done + [r] + more
  {
  }

  lemma StepAnchors(c: Crypto, before: seq<string>, now: seq<string>, next: seq<string>, done: seq<Receipt>, r: Receipt, line: string)
    requires Backfilled(c, before, now, done) && NoReturn(r.id) && Follows(c, now, next, line, BACKFILL, r.id)
    ensures Backfilled(c, before, next, done + [r]) && Anchored(next) == Anchored(now) + {r.id}
  {
    IdsMore(done, r);
    assert next == now + [line];
  }

  lemma IdsMore(done: seq<Receipt>, r: Receipt)
    ensures Ids(done + [r]) == Ids(done) + {r.id}
  {
    var all := done + [r];
    forall id | id in Ids(done) ensures id in Ids(all) {
      var i :| 0 <= i < |done| && done[i].id == id;
      assert all[i].id == id;
    }
    assert all[|done|].id == r.id;
  }

  /** Everything a written line does to the ledger it is added to. */
  lemma Extended(c: Crypto, text: string, now: nat, action: string, id: string, canonical: string)
    requires c.Good() && Ended(text) && FieldValid(action) && FieldValid(id)
    ensures var lines := Lines(text);
            && var line := NextLine(c, lines, now, action, id, canonical);
            && var more := Lines(text + (line + "\n"));
            && Follows(c, lines, more, line, action, id)
            && Ended(text + (line + "\n")) && text <= text + (line + "\n")
  {
    if NoReturn(action) && NoReturn(id) {
      GoodAppend(c, text, now, action, id, canonical);
      AnchoredMore(Lines(text), NextLine(c, Lines(text), now, action, id, canonical));
    } else {
      ReturnBreaksChain(c, text, now, action, id, canonical);
    }
  }
}
