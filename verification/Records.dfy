/** Transaction records: canonical JSON whose strings are rewritten. */
module Records {
  import opened Wrappers
  import opened Text
  import opened Hexadecimal
  import opened Locations

  datatype Json =
    | Atom(text: string)              // null, true, false or an integer
    | Str(value: string)
    | Arr(items: Items)
    | Obj(fields: Fields)

  datatype Items = NoItems | Item(head: Json, tail: Items)

  datatype Fields = NoFields | Field(key: string, value: Json, tail: Fields)

  // ----- canonical bytes

  /** Characters a canonical JSON string writes with a backslash. */
  predicate Escaped(c: char) {
    c == '"' || c == '\\' || c < ' '
  }

  function EscapeChar(c: char): (r: string) {
    if c == '"' then "\\\""
    else if c == '\\' then "\\\\"
    else if c == '\n' then "\\n"
    else if c == '\r' then "\\r"
    else if c == '\t' then "\\t"
    else if c as int == 8 then "\\b"
    else if c as int == 12 then "\\f"
    else if c < ' ' then "\\u00" + [LOWER[c as int / 16], LOWER[c as int % 16]]
    else [c]
  }

  function Escape(s: string): string {
    if s == "" then "" else EscapeChar(s[0]) + Escape(s[1..])
  }

  /** What the inside of a JSON string stands for (section 7 of RFC 8259), but for surrogate pairs. */
  function Unescape(s: string): Option<string> {
    if s == "" then Some("")
    else if s[0] != '\\' then Before(s[0], Unescape(s[1..]))
    else if |s| < 2 then None
    else if s[1] == '"' || s[1] == '\\' || s[1] == '/' then Before(s[1], Unescape(s[2..]))
    else if s[1] == 'b' then Before(8 as char, Unescape(s[2..]))
    else if s[1] == 'f' then Before(12 as char, Unescape(s[2..]))
    else if s[1] == 'n' then Before('\n', Unescape(s[2..]))
    else if s[1] == 'r' then Before('\r', Unescape(s[2..]))
    else if s[1] == 't' then Before('\t', Unescape(s[2..]))
    else if s[1] == 'u' && |s| >= 6 && s[2..4] == "00" then
      match (Digit(s[4]), Digit(s[5]))
      case (Some(high), Some(low)) => Before((16 * high + low) as char, Unescape(s[6..]))
      case _ => None
    else None
  }

  function Before(c: char, rest: Option<string>): Option<string> {
    if rest.Some? then Some([c] + rest.value) else None
  }

  /** What is written for a string stands for it. */
  lemma {:induction false} EscapeReadsBack(s: string)
    ensures Unescape(Escape(s)) == Some(s)
  {
    if s != "" {
      EscapeReadsBack(s[1..]);
      var one, rest := EscapeChar(s[0]), Escape(s[1..]);
      OneReadsBack(s[0], one, rest);
      assert s == [s[0]] + s[1..];
    }
  }

  lemma OneReadsBack(c: char, one: string, rest: string)
    requires one == EscapeChar(c)
    ensures Unescape(one + rest) == Before(c, Unescape(rest))
  {
    var text := one + rest;
    if !Escaped(c) {
      assert text[0] == c && text[1..] == rest;
    } else if |one| == 2 {
      ShortReadsBack(c, one, rest);
    } else {
      ControlReadsBack(c, rest);
    }
  }

  lemma ShortReadsBack(c: char, one: string, rest: string)
    requires Escaped(c) && one == EscapeChar(c) && |one| == 2
    ensures Unescape(one + rest) == Before(c, Unescape(rest))
  {
    var text := one + rest;
    assert text[0] == '\\' && text[1] == one[1] && text[2..] == rest;
  }

  lemma ControlReadsBack(c: char, rest: string)
    requires c < ' ' && |EscapeChar(c)| == 6
    ensures Unescape(EscapeChar(c) + rest) == Before(c, Unescape(rest))
  {
    var high: nat, low: nat := c as int / 16, c as int % 16;
    DigitsAre(high);
    DigitsAre(low);
    assert EscapeChar(c) == "\\u00" + [LOWER[high], LOWER[low]];
    CodeReadsBack(c, high, low, LOWER[high], LOWER[low], rest);
  }

  lemma CodeReadsBack(c: char, high: nat, low: nat, a: char, b: char, rest: string)
    requires Digit(a) == Some(high) && Digit(b) == Some(low) && 16 * high + low == c as int
    ensures Unescape("\\u00" + [a, b] + rest) == Before(c, Unescape(rest))
  {
    var text := "\\u00" + [a, b] + rest;
    assert text[0] == '\\' && text[1] == 'u' && text[2..4] == "00" && text[4] == a && text[5] == b && text[6..] == rest;
  }

  /** `canonical_bytes`: no spaces, fields in the order they have. */
  function Encode(j: Json): string {
    match j
    case Atom(text) => text
    case Str(s) => EncodeString(s)
    case Arr(items) => "[" + EncodeItems(items) + "]"
    case Obj(fields) => "{" + EncodeFields(fields) + "}"
  }

  function EncodeString(s: string): string {
    "\"" + Escape(s) + "\""
  }

  function EncodeItems(items: Items): string {
    match items
    case NoItems => ""
    case Item(head, NoItems) => Encode(head)
    case Item(head, tail) => Encode(head) + "," + EncodeItems(tail)
  }

  function EncodeFields(fields: Fields): string {
    match fields
    case NoFields => ""
    case Field(key, value, NoFields) => EncodeString(key) + ":" + Encode(value)
    case Field(key, value, tail) => EncodeString(key) + ":" + Encode(value) + "," + EncodeFields(tail)
  }

  // ----- the strings of a record

  ghost predicate StringsFree(stores: Stores, j: Json) {
    match j
    case Atom(_) => true
    case Str(s) => !Mentions(stores, s)
    case Arr(items) => ItemsFree(stores, items)
    case Obj(fields) => FieldsFree(stores, fields)
  }

  ghost predicate ItemsFree(stores: Stores, items: Items) {
    match items
    case NoItems => true
    case Item(head, tail) => StringsFree(stores, head) && ItemsFree(stores, tail)
  }

  ghost predicate FieldsFree(stores: Stores, fields: Fields) {
    match fields
    case NoFields => true
    case Field(key, value, tail) => !Mentions(stores, key) && StringsFree(stores, value) && FieldsFree(stores, tail)
  }

  // ----- rewriting

  /** `_rewrite_json_strings`: every string value that mentions an old directory is mapped; keys are not. */
  function Rewrite(stores: Stores, j: Json): (r: Result<Json>)
    ensures r.Refused? ==> r.code == "RELOCATION_REFUSED"
  {
    match j
    case Atom(_) => Ok(j)
    case Str(s) =>
      if Mentions(stores, s) then
        (match Map(stores, s)
         case Ok(mapped) => Ok(Str(mapped))
         case Refused(code) => Refused(code))
      else Ok(j)
    case Arr(items) =>
      (match RewriteItems(stores, items)
       case Ok(r) => Ok(Arr(r))
       case Refused(code) => Refused(code))
    case Obj(fields) =>
      (match RewriteFields(stores, fields)
       case Ok(r) => Ok(Obj(r))
       case Refused(code) => Refused(code))
  }

  function RewriteItems(stores: Stores, items: Items): (r: Result<Items>)
    ensures r.Refused? ==> r.code == "RELOCATION_REFUSED"
  {
    match items
    case NoItems => Ok(NoItems)
    case Item(head, tail) =>
      match (Rewrite(stores, head), RewriteItems(stores, tail))
      case (Ok(h), Ok(t)) => Ok(Item(h, t))
      case (Refused(code), _) => Refused(code)
      case (_, Refused(code)) => Refused(code)
  }

  function RewriteFields(stores: Stores, fields: Fields): (r: Result<Fields>)
    ensures r.Refused? ==> r.code == "RELOCATION_REFUSED"
  {
    match fields
    case NoFields => Ok(NoFields)
    case Field(key, value, tail) =>
      match (Rewrite(stores, value), RewriteFields(stores, tail))
      case (Ok(v), Ok(t)) => Ok(Field(key, v, t))
      case (Refused(code), _) => Refused(code)
      case (_, Refused(code)) => Refused(code)
  }

  /** A record without mentions in its strings is left as it is. */
  lemma {:induction false} RewriteOfFree(stores: Stores, j: Json)
    requires StringsFree(stores, j)
    ensures Rewrite(stores, j) == Ok(j)
  {
    match j {
      case Arr(items) => RewriteItemsOfFree(stores, items);
      case Obj(fields) => RewriteFieldsOfFree(stores, fields);
      case _ =>
    }
  }

  lemma {:induction false} RewriteItemsOfFree(stores: Stores, items: Items)
    requires ItemsFree(stores, items)
    ensures RewriteItems(stores, items) == Ok(items)
  {
    if items.Item? {
      RewriteOfFree(stores, items.head);
      RewriteItemsOfFree(stores, items.tail);
    }
  }

  lemma {:induction false} RewriteFieldsOfFree(stores: Stores, fields: Fields)
    requires FieldsFree(stores, fields)
    ensures RewriteFields(stores, fields) == Ok(fields)
  {
    if fields.Field? {
      RewriteOfFree(stores, fields.value);
      RewriteFieldsOfFree(stores, fields.tail);
    }
  }

  // ----- where the strings go

  /** A string that mentions the old store goes where its location does; any other stays. */
  ghost predicate StringMoves(stores: Stores, before: string, after: string) {
    if Contains(before, stores.oldData) || Contains(before, stores.oldState) then Moves(stores, before, after)
    else after == before
  }

  /** The same record, field by field and item by item, with each string gone where it should. */
  ghost predicate Follows(stores: Stores, before: Json, after: Json) {
    match before
    case Atom(_) => after == before
    case Str(s) => after.Str? && StringMoves(stores, s, after.value)
    case Arr(items) => after.Arr? && ItemsFollow(stores, items, after.items)
    case Obj(fields) => after.Obj? && FieldsFollow(stores, fields, after.fields)
  }

  ghost predicate ItemsFollow(stores: Stores, before: Items, after: Items) {
    match before
    case NoItems => after == NoItems
    case Item(head, tail) => after.Item? && Follows(stores, head, after.head) && ItemsFollow(stores, tail, after.tail)
  }

  ghost predicate FieldsFollow(stores: Stores, before: Fields, after: Fields) {
    match before
    case NoFields => after == NoFields
    case Field(key, value, tail) =>
      after.Field? && after.key == key && Follows(stores, value, after.value) && FieldsFollow(stores, tail, after.tail)
  }

  /** Rewriting gives the record that is the same but for where its strings went, and refuses exactly where
      there is none. */
  lemma {:induction false} RewriteMeaning(stores: Stores, j: Json, after: Json)
    requires stores.Apart()
    ensures Rewrite(stores, j) == Ok(after) <==> Follows(stores, j, after)
    decreases j, 0
  {
    match j {
      case Atom(_) =>
      case Str(s) =>
        MentionsBoth(stores, s);
        if after.Str? {
          MapMeaning(stores, s, after.value);
        }
      case Arr(items) => if after.Arr? { RewriteItemsMeaning(stores, items, after.items); }
      case Obj(fields) => if after.Obj? { RewriteFieldsMeaning(stores, fields, after.fields); }
    }
  }

  lemma {:induction false} RewriteItemsMeaning(stores: Stores, items: Items, after: Items)
    requires stores.Apart()
    ensures RewriteItems(stores, items) == Ok(after) <==> ItemsFollow(stores, items, after)
    decreases items, 0
  {
    if items.Item? && after.Item? {
      RewriteMeaning(stores, items.head, after.head);
      RewriteItemsMeaning(stores, items.tail, after.tail);
    }
  }

  lemma {:induction false} RewriteFieldsMeaning(stores: Stores, fields: Fields, after: Fields)
    requires stores.Apart()
    ensures RewriteFields(stores, fields) == Ok(after) <==> FieldsFollow(stores, fields, after)
    decreases fields, 0
  {
    if fields.Field? && after.Field? {
      RewriteMeaning(stores, fields.value, after.value);
      RewriteFieldsMeaning(stores, fields.tail, after.tail);
    }
  }

  /** The string at a position: which item or which field, at each level. */
  function StringAt(j: Json, path: seq<nat>): Option<string> {
    match j
    case Atom(_) => None
    case Str(s) => if path == [] then Some(s) else None
    case Arr(items) => if path == [] then None else StringInItems(items, path[0], path[1..])
    case Obj(fields) => if path == [] then None else StringInFields(fields, path[0], path[1..])
  }

  function StringInItems(items: Items, k: nat, path: seq<nat>): Option<string> {
    match items
    case NoItems => None
    case Item(head, tail) => if k == 0 then StringAt(head, path) else StringInItems(tail, k - 1, path)
  }

  function StringInFields(fields: Fields, k: nat, path: seq<nat>): Option<string> {
    match fields
    case NoFields => None
    case Field(_, value, tail) => if k == 0 then StringAt(value, path) else StringInFields(tail, k - 1, path)
  }

  /** At every position. */
  lemma {:induction false} FollowsAt(stores: Stores, before: Json, after: Json, path: seq<nat>)
    requires Follows(stores, before, after)
    ensures StringAt(after, path).Some? <==> StringAt(before, path).Some?
    ensures StringAt(before, path).Some? ==>
              StringMoves(stores, StringAt(before, path).value, StringAt(after, path).value)
    decreases before, 0
  {
    match before {
      case Arr(items) => if path != [] { ItemsFollowAt(stores, items, after.items, path[0], path[1..]); }
      case Obj(fields) => if path != [] { FieldsFollowAt(stores, fields, after.fields, path[0], path[1..]); }
      case _ =>
    }
  }

  lemma {:induction false} ItemsFollowAt(stores: Stores, before: Items, after: Items, k: nat, path: seq<nat>)
    requires ItemsFollow(stores, before, after)
    ensures StringInItems(after, k, path).Some? <==> StringInItems(before, k, path).Some?
    ensures StringInItems(before, k, path).Some? ==>
              StringMoves(stores, StringInItems(before, k, path).value, StringInItems(after, k, path).value)
    decreases before, 0
  {
    if before.Item? {
      if k == 0 { FollowsAt(stores, before.head, after.head, path); }
      else { ItemsFollowAt(stores, before.tail, after.tail, k - 1, path); }
    }
  }

  lemma {:induction false} FieldsFollowAt(stores: Stores, before: Fields, after: Fields, k: nat, path: seq<nat>)
    requires FieldsFollow(stores, before, after)
    ensures StringInFields(after, k, path).Some? <==> StringInFields(before, k, path).Some?
    ensures StringInFields(before, k, path).Some? ==>
              StringMoves(stores, StringInFields(before, k, path).value, StringInFields(after, k, path).value)
    decreases before, 0
  {
    if before.Field? {
      if k == 0 { FollowsAt(stores, before.value, after.value, path); }
      else { FieldsFollowAt(stores, before.tail, after.tail, k - 1, path); }
    }
  }

  /** Two strings of the old store, at any positions of two records, that become equal were equal. */
  lemma StringsStayDistinct(stores: Stores, before: Json, after: Json, path: seq<nat>,
                            other: Json, otherAfter: Json, otherPath: seq<nat>)
    requires stores.Apart() && Follows(stores, before, after) && Follows(stores, other, otherAfter)
    requires StringAt(before, path).Some? && StringAt(other, otherPath).Some?
    requires InOldStore(stores, StringAt(before, path).value) && InOldStore(stores, StringAt(other, otherPath).value)
    requires StringAt(after, path) == StringAt(otherAfter, otherPath)
    ensures StringAt(before, path) == StringAt(other, otherPath)
  {
    FollowsAt(stores, before, after, path);
    FollowsAt(stores, other, otherAfter, otherPath);
    OldIsMentioned(stores, StringAt(before, path).value);
    OldIsMentioned(stores, StringAt(other, otherPath).value);
    MovesIsInjective(stores, StringAt(before, path).value, StringAt(other, otherPath).value, StringAt(after, path).value);
  }

  lemma OldIsMentioned(stores: Stores, s: string)
    requires InOldStore(stores, s)
    ensures Contains(s, stores.oldData) || Contains(s, stores.oldState)
  {
    if Under(stores.oldData, s) { UnderIsPrefix(stores.oldData, s); } else { UnderIsPrefix(stores.oldState, s); }
  }

  // ----- bytes without a mention hold no string with one

  lemma {:induction false} EscapeConcat(a: string, b: string)
    ensures Escape(a + b) == Escape(a) + Escape(b)
  {
    if a == "" {
      assert a + b == b;
    } else {
      assert (a + b)[1..] == a[1..] + b;
      EscapeConcat(a[1..], b);
    }
  }

  lemma EscapeKeeps(s: string, p: string, q: string)
    requires Contains(s, p) && Contains(Escape(p), q)
    ensures Contains(EncodeString(s), q)
  {
    var i :| 0 <= i <= |s| && OccursAt(s, p, i);
    var a, b := s[..i], s[i + |p|..];
    assert s == a + p + b;
    EscapeConcat(a + p, b);
    EscapeConcat(a, p);
    var x, y, z := Escape(a), Escape(p), Escape(b);
    InQuotes(x, y, z, q);
    assert EncodeString(s) == "\"" + (x + y + z) + "\"";
  }

  lemma InQuotes(a: string, mid: string, b: string, q: string)
    requires Contains(mid, q)
    ensures Contains("\"" + (a + mid + b) + "\"", q)
  {
    var quote := "\"";
    ContainsConcat(a, mid, q);
    ContainsConcat(a + mid, b, q);
    ContainsConcat(quote, a + mid + b, q);
    ContainsConcat(quote + (a + mid + b), quote, q);
  }

  /** What JSON writes for each old directory's name mentions one of them. */
  ghost predicate NamesShow(stores: Stores) {
    Mentions(stores, Escape(stores.oldData)) && Mentions(stores, Escape(stores.oldState))
  }

  lemma MentionsEncoded(stores: Stores, s: string)
    requires NamesShow(stores)
    ensures Mentions(stores, s) ==> Mentions(stores, EncodeString(s))
  {
    if Mentions(stores, s) {
      var i :| 0 <= i < 2 && Contains(s, stores.Old()[i]);
      var j :| 0 <= j < 2 && Contains(Escape(stores.Old()[i]), stores.Old()[j]);
      EscapeKeeps(s, stores.Old()[i], stores.Old()[j]);
    }
  }

  lemma PartMentions(stores: Stores, a: string, part: string, b: string)
    ensures Mentions(stores, part) ==> Mentions(stores, a + part + b)
  {
    if Mentions(stores, part) {
      var i :| 0 <= i < 2 && Contains(part, stores.Old()[i]);
      ContainsConcat(a, part, stores.Old()[i]);
      ContainsConcat(a + part, b, stores.Old()[i]);
    }
  }

  /** Where the names show in what JSON writes, canonical bytes that mention none of them hold no string,
      value or key, that does. */
  lemma {:induction false} FreeBytesFreeStrings(stores: Stores, j: Json)
    requires NamesShow(stores) && !Mentions(stores, Encode(j))
    ensures StringsFree(stores, j)
  {
    match j {
      case Atom(_) =>
      case Str(s) => MentionsEncoded(stores, s);
      case Arr(items) =>
        PartMentions(stores, "[", EncodeItems(items), "]");
        FreeBytesFreeItems(stores, items);
      case Obj(fields) =>
        PartMentions(stores, "{", EncodeFields(fields), "}");
        FreeBytesFreeFields(stores, fields);
    }
  }

  lemma {:induction false} FreeBytesFreeItems(stores: Stores, items: Items)
    requires NamesShow(stores) && !Mentions(stores, EncodeItems(items))
    ensures ItemsFree(stores, items)
  {
    if items.Item? {
      var head := Encode(items.head);
      var rest := if items.tail.NoItems? then "" else "," + EncodeItems(items.tail);
      assert EncodeItems(items) == head + rest;
      ItemMentions(stores, head, rest);
      FreeBytesFreeStrings(stores, items.head);
      if items.tail.Item? {
        AfterComma(stores, EncodeItems(items.tail));
        FreeBytesFreeItems(stores, items.tail);
      }
    }
  }

  lemma ItemMentions(stores: Stores, head: string, rest: string)
    requires !Mentions(stores, head + rest)
    ensures !Mentions(stores, head) && !Mentions(stores, rest)
  {
    assert "" + head + rest == head + rest && head + rest + "" == head + rest;
    PartMentions(stores, "", head, rest);
    PartMentions(stores, head, rest, "");
  }

  lemma {:induction false} FreeBytesFreeFields(stores: Stores, fields: Fields)
    requires NamesShow(stores) && !Mentions(stores, EncodeFields(fields))
    ensures FieldsFree(stores, fields)
  {
    if fields.Field? {
      var key, value := EncodeString(fields.key), Encode(fields.value);
      var rest := if fields.tail.NoFields? then "" else "," + EncodeFields(fields.tail);
      assert EncodeFields(fields) == key + ":" + value + rest;
      FieldMentions(stores, key, value, rest);
      MentionsEncoded(stores, fields.key);
      FreeBytesFreeStrings(stores, fields.value);
      if fields.tail.Field? {
        AfterComma(stores, EncodeFields(fields.tail));
        FreeBytesFreeFields(stores, fields.tail);
      }
    }
  }

  lemma FieldMentions(stores: Stores, key: string, value: string, rest: string)
    requires !Mentions(stores, key + ":" + value + rest)
    ensures !Mentions(stores, key) && !Mentions(stores, value) && !Mentions(stores, rest)
  {
    var all := key + ":" + value + rest;
    assert "" + key + (":" + value + rest) == all;
    assert key + ":" + value + rest + "" == all;
    PartMentions(stores, "", key, ":" + value + rest);
    PartMentions(stores, key + ":", value, rest);
    PartMentions(stores, key + ":" + value, rest, "");
  }

  lemma AfterComma(stores: Stores, rest: string)
    requires !Mentions(stores, "," + rest)
    ensures !Mentions(stores, rest)
  {
    assert "," + rest + "" == "," + rest;
    PartMentions(stores, ",", rest, "");
  }

  // ----- planning one record

  /** A record file: canonical JSON, or bytes that are not. */
  datatype RecordFile = Canonical(value: Json) | NotCanonical(raw: string)

  function Bytes(f: RecordFile): string {
    match f
    case Canonical(value) => Encode(value)
    case NotCanonical(raw) => raw
  }

  /** `_plan_transaction_records` for one file: left alone without a mention, else rewritten. */
  function PlanRecord(stores: Stores, f: RecordFile): (r: Result<RecordFile>)
    ensures r.Refused? ==> r.code == "RELOCATION_REFUSED"
  {
    if !Mentions(stores, Bytes(f)) then Ok(f)
    else
      match f
      case NotCanonical(_) => Refused("RELOCATION_REFUSED")
      case Canonical(value) =>
        match Rewrite(stores, value)
        case Refused(code) => Refused(code)
        case Ok(rewritten) =>
          if Mentions(stores, Encode(rewritten)) then Refused("RELOCATION_REFUSED") else Ok(Canonical(rewritten))
  }

  /** A planned record mentions no old directory, so planning it again leaves it alone. */
  lemma PlanRecordAgain(stores: Stores, f: RecordFile)
    requires PlanRecord(stores, f).Ok?
    ensures !Mentions(stores, Bytes(PlanRecord(stores, f).value))
    ensures PlanRecord(stores, PlanRecord(stores, f).value) == PlanRecord(stores, f)
  {
  }

  /** What becomes of a record: left as it is if its bytes mention no old directory, and else the same but
      for where its strings went. */
  ghost predicate RecordMoves(stores: Stores, before: RecordFile, after: RecordFile) {
    if Contains(Bytes(before), stores.oldData) || Contains(Bytes(before), stores.oldState)
    then before.Canonical? && after.Canonical? && Follows(stores, before.value, after.value)
    else after == before
  }

  /** A record is planned to what becomes of it, if that mentions no old directory, and refused otherwise. */
  lemma PlanRecordMeaning(stores: Stores, f: RecordFile, after: RecordFile)
    requires stores.Apart()
    ensures PlanRecord(stores, f) == Ok(after) <==>
              RecordMoves(stores, f, after)
              && !Contains(Bytes(after), stores.oldData) && !Contains(Bytes(after), stores.oldState)
  {
    MentionsBoth(stores, Bytes(f));
    MentionsBoth(stores, Bytes(after));
    if f.Canonical? && after.Canonical? { RewriteMeaning(stores, f.value, after.value); }
  }

  /** Nor does any string of it, where the names show. */
  lemma PlannedRecordIsFree(stores: Stores, f: RecordFile)
    requires NamesShow(stores) && PlanRecord(stores, f).Ok? && f.Canonical?
    ensures PlanRecord(stores, f).value.Canonical? && StringsFree(stores, PlanRecord(stores, f).value.value)
  {
    FreeBytesFreeStrings(stores, PlanRecord(stores, f).value.value);
  }

  // ----- and only then

  predicate Rooted(dir: string) { dir != "" && dir[0] == '/' }

  /** Every planned record holds no string that mentions an old directory. */
  ghost predicate PlansAreFree(stores: Stores) {
    forall j: Json :: PlanRecord(stores, Canonical(j)).Ok? ==>
      PlanRecord(stores, Canonical(j)).value.Canonical? && StringsFree(stores, PlanRecord(stores, Canonical(j)).value.value)
  }

  /** Exactly then: a name that does not show is kept, in some record, as it was. */
  lemma PlansAreFreeExactly(stores: Stores)
    requires Rooted(stores.oldData) && Rooted(stores.oldState)
    ensures PlansAreFree(stores) <==> NamesShow(stores)
  {
    if NamesShow(stores) {
      forall j: Json | PlanRecord(stores, Canonical(j)).Ok?
        ensures PlanRecord(stores, Canonical(j)).value.Canonical?
                && StringsFree(stores, PlanRecord(stores, Canonical(j)).value.value)
      {
        PlannedRecordIsFree(stores, Canonical(j));
      }
    } else {
      HiddenNameGoesUnseen(stores, if Mentions(stores, Escape(stores.oldData)) then stores.oldState else stores.oldData);
    }
  }

  /** So many of one letter. */
  function Letters(c: char, n: nat): (r: string)
    ensures |r| == n && forall k :: 0 <= k < n ==> r[k] == c
  {
    if n == 0 then "" else [c] + Letters(c, n - 1)
  }

  /** A letter that is neither. */
  function OtherLetter(x: char, y: char): (c: char)
    ensures (c == 'a' || c == 'b' || c == 'c') && c != x && c != y
  {
    if x != 'a' && y != 'a' then 'a' else if x != 'b' && y != 'b' then 'b' else 'c'
  }

  function Last(name: string): char
    requires name != ""
  {
    name[|name| - 1]
  }

  /** A location beside a directory: its name, and letters, none of them a name's last, enough that no
      closing quote completes a name. */
  function Beside(stores: Stores, dir: string): string
    requires stores.oldData != "" && stores.oldState != ""
  {
    dir + Letters(OtherLetter(Last(stores.oldData), Last(stores.oldState)), |stores.oldData| + |stores.oldState|)
  }

  lemma HiddenNameGoesUnseen(stores: Stores, dir: string)
    requires Rooted(stores.oldData) && Rooted(stores.oldState)
    requires (dir == stores.oldData || dir == stores.oldState) && !Mentions(stores, Escape(dir))
    ensures var j := Str(Beside(stores, dir));
            PlanRecord(stores, Canonical(j)) == Ok(Canonical(j)) && !StringsFree(stores, j)
  {
    var s := Beside(stores, dir);
    PrefixIsContained(dir, s);
    MentionsBoth(stores, s);
    MentionsBoth(stores, Escape(dir));
    BesideIsHidden(stores, dir, stores.oldData);
    BesideIsHidden(stores, dir, stores.oldState);
    MentionsBoth(stores, EncodeString(s));
  }

  lemma BesideIsHidden(stores: Stores, dir: string, name: string)
    requires Rooted(stores.oldData) && Rooted(stores.oldState)
    requires (name == stores.oldData || name == stores.oldState) && !Contains(Escape(dir), name)
    ensures !Contains(EncodeString(Beside(stores, dir)), name)
  {
    LettersHide(dir, OtherLetter(Last(stores.oldData), Last(stores.oldState)), |stores.oldData| + |stores.oldState|, name);
  }

  lemma LettersHide(dir: string, c: char, n: nat, name: string)
    requires c == 'a' || c == 'b' || c == 'c'
    requires Rooted(name) && |name| <= n && Last(name) != c && !Contains(Escape(dir), name)
    ensures !Contains(EncodeString(dir + Letters(c, n)), name)
  {
    BesideEncoded(dir, c, n);
    NotCompleted(Escape(dir), c, n, name);
  }

  lemma BesideEncoded(dir: string, c: char, n: nat)
    requires c == 'a' || c == 'b' || c == 'c'
    ensures EncodeString(dir + Letters(c, n)) == "\"" + (Escape(dir) + Letters(c, n)) + "\""
  {
    EscapeConcat(dir, Letters(c, n));
    EscapeLetters(c, n);
  }

  lemma {:induction false} EscapeLetters(c: char, n: nat)
    requires c == 'a' || c == 'b' || c == 'c'
    ensures Escape(Letters(c, n)) == Letters(c, n)
  {
    if n > 0 {
      EscapeLetters(c, n - 1);
      assert Letters(c, n)[1..] == Letters(c, n - 1);
    }
  }

  /** Quotes around, and letters after, make no new occurrence of a name. */
  lemma NotCompleted(text: string, c: char, n: nat, name: string)
    requires Rooted(name) && |name| <= n && Last(name) != c && c != '/'
    ensures Contains("\"" + (text + Letters(c, n)) + "\"", name) ==> Contains(text, name)
  {
    var whole := "\"" + (text + Letters(c, n)) + "\"";
    if Contains(whole, name) {
      var k :| 0 <= k <= |whole| && OccursAt(whole, name, k);
      EndsOf(whole, name, k);
      var end := 1 + |text|;
      assert whole[0] == whole[end + n] == '"';
      assert forall m :: end <= m < end + n ==> whole[m] == c;
      assert 1 <= k < end;
      assert k + |name| - 1 < end;
      assert text == whole[1..1 + |text|];
      assert text[k - 1..k - 1 + |name|] == whole[k..k + |name|];
      assert OccursAt(text, name, k - 1);
    }
  }

  lemma EndsOf(s: string, p: string, i: int)
    requires OccursAt(s, p, i) && p != ""
    ensures s[i] == p[0] && s[i + |p| - 1] == p[|p| - 1]
  {
    var part := s[i..i + |p|];
    assert part[0] == s[i] && part[|p| - 1] == s[i + |p| - 1];
  }

  // ----- which names show themselves

  /** No character that JSON escapes but backslashes at the end. */
  predicate PlainThenBackslashes(p: string) {
    if p == "" then true
    else if Escaped(p[0]) then (forall c :: c in p ==> c == '\\')
    else PlainThenBackslashes(p[1..])
  }

  /** A directory's name shows in what JSON writes for it exactly if it is such. */
  lemma ShowsItself(p: string)
    requires Rooted(p)
    ensures Contains(Escape(p), p) <==> PlainThenBackslashes(p)
  {
    if PlainThenBackslashes(p) {
      ShowsAtStart(p);
      PrefixIsContained(p, Escape(p));
    }
    if Contains(Escape(p), p) {
      var i :| 0 <= i <= |Escape(p)| && OccursAt(Escape(p), p, i);
      OnlyAtStart(p, i);
      assert p <= Escape(p);
      StartIsPlain(p);
    }
  }

  lemma {:induction false} ShowsAtStart(p: string)
    requires PlainThenBackslashes(p)
    ensures p <= Escape(p)
  {
    if p != "" {
      if Escaped(p[0]) {
        Backslashes(p);
        StartOf(p, Escape(p));
      } else {
        ShowsAtStart(p[1..]);
        assert p == [p[0]] + p[1..];
      }
    }
  }

  lemma StartOf(p: string, s: string)
    requires |p| <= |s| && (forall c :: c in p ==> c == '\\') && forall k :: 0 <= k < |s| ==> s[k] == '\\'
    ensures p <= s
  {
    assert forall k :: 0 <= k < |p| ==> p[k] in p;
  }

  lemma {:induction false} Backslashes(p: string)
    requires forall c :: c in p ==> c == '\\'
    ensures |Escape(p)| == 2 * |p| && forall k :: 0 <= k < |Escape(p)| ==> Escape(p)[k] == '\\'
  {
    if p != "" {
      assert p[0] in p;
      assert forall c :: c in p[1..] ==> c in p;
      Backslashes(p[1..]);
      var two := "\\\\";
      assert Escape(p) == two + Escape(p[1..]) && |two| == 2 && two[0] == '\\' && two[1] == '\\';
    }
  }

  function Slashes(s: string): nat {
    if s == "" then 0 else Slashes(s[1..]) + if s[0] == '/' then 1 else 0
  }

  lemma {:induction false} SlashesConcat(a: string, b: string)
    ensures Slashes(a + b) == Slashes(a) + Slashes(b)
  {
    if a == "" {
      assert a + b == b;
    } else {
      assert (a + b)[1..] == a[1..] + b;
      SlashesConcat(a[1..], b);
    }
  }

  lemma {:induction false} EscapeKeepsSlashes(s: string)
    ensures Slashes(Escape(s)) == Slashes(s)
  {
    if s != "" {
      EscapeKeepsSlashes(s[1..]);
      SlashesConcat(EscapeChar(s[0]), Escape(s[1..]));
      EscapedSlashes(s[0]);
    }
  }

  lemma EscapedSlashes(c: char)
    ensures Slashes(EscapeChar(c)) == if c == '/' then 1 else 0
  {
    if c == '/' {
      assert [c][1..] == "";
    } else {
      assert forall k :: 0 <= k < |LOWER| ==> LOWER[k] != '/';
      NoSlash(EscapeChar(c));
    }
  }

  lemma {:induction false} NoSlash(s: string)
    requires '/' !in s
    ensures Slashes(s) == 0
  {
    if s != "" {
      assert s[0] in s;
      NoSlash(s[1..]);
    }
  }

  /** All slashes of the encoding lie in an occurrence of the name, so it is at the start. */
  lemma OnlyAtStart(p: string, i: nat)
    requires Rooted(p) && OccursAt(Escape(p), p, i)
    ensures i == 0
  {
    var text := Escape(p);
    var before, after := text[..i], text[i + |p|..];
    assert text == before + p + after;
    assert text[0] == '/';
    assert before == "" || before[0] == '/';
    EscapeKeepsSlashes(p);
    SlashesOfThree(before, p, after);
  }

  lemma SlashesOfThree(a: string, p: string, b: string)
    ensures Slashes(a + p + b) == Slashes(a) + Slashes(p) + Slashes(b)
  {
    SlashesConcat(a + p, b);
    SlashesConcat(a, p);
  }

  lemma {:induction false} StartIsPlain(p: string)
    requires p <= Escape(p)
    ensures PlainThenBackslashes(p)
  {
    if p != "" {
      var text, rest := EscapeChar(p[0]), Escape(p[1..]);
      if Escaped(p[0]) {
        assert text[0] == '\\' && p[0] == Escape(p)[0] == '\\';
        assert p[1..] <= [text[1]] + rest;
        OnlyBackslashes(p[1..], [text[1]]);
        assert p == [p[0]] + p[1..];
      } else {
        assert Escape(p)[1..] == rest && p[1..] <= rest;
        StartIsPlain(p[1..]);
      }
    }
  }

  lemma {:induction false} OnlyBackslashes(p: string, before: string)
    requires before != "" && (forall k :: 0 <= k < |before| ==> before[k] == '\\') && p <= before + Escape(p)
    ensures forall c :: c in p ==> c == '\\'
  {
    if p != "" {
      assert p[0] == (before + Escape(p))[0] == '\\';
      var two := "\\\\";
      assert Escape(p) == two + Escape(p[1..]) && two[0] == '\\' && two[1] == '\\';
      var more := before[1..] + two;
      assert (before + Escape(p))[1..] == more + Escape(p[1..]);
      OnlyBackslashes(p[1..], more);
      assert p == [p[0]] + p[1..];
    }
  }
}
