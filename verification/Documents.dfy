/**
 * The JSON documents of the cache (raw_json) and the merge of a stored message with a
 * newer version of it (merge_message in sync/src/cache.rs). Documents are objects;
 * the keys the cache looks at are named, any other key is Extra.
 */
module Documents {
  import opened Prelude
  import opened Domain
  import Decimal

  datatype Json =
    | Null
    | Bool(b: bool)
    | Num(n: int)
    | Str(s: string)
    | Arr(items: seq<Json>)
    | Obj(fields: seq<(string, Json)>)

  datatype Key =
    | Id | ChatId | Guid | Text | CreatedAt | IsFromMe | Sender | SenderName | Attachments
    | Name | ContactName | DisplayName | Identifier | Service | Participants
    | LastMessageAt | UnreadCount | IsGroup
    | Extra(name: string)

  type Doc = map<Key, Json>

  /** Indexing an object: a missing key reads as null. */
  function Get(d: Doc, k: Key): Json {
    if k in d then d[k] else Null
  }

  function Lookup(d: Doc, k: Key): Option<Json> {
    if k in d then Some(d[k]) else None
  }

  function AsStr(v: Json): Option<string> {
    if v.Str? then Some(v.s) else None
  }

  function AsBool(v: Json): bool {
    v.Bool? && v.b
  }

  /** as_i64, with unwrap_or(0) */
  function AsCount(v: Json): (n: int)
    ensures I64_MIN <= n <= I64_MAX
  {
    if v.Num? && I64_MIN <= v.n <= I64_MAX then v.n else 0
  }

  /** parse_json_id */
  function ParseId(v: Json): (id: Option<int>)
    ensures id.Some? ==> I64_MIN <= id.value <= I64_MAX
  {
    match v
    case Num(n) =>
      if I64_MIN <= n <= I64_MAX then Some(n)
      else if 0 <= n <= U64_MAX then Some(0)
      else None
    case Str(s) => Decimal.ParseI64(s)
    case _ => None
  }

  /** parse_json_id with unwrap_or(0) */
  function IdOf(v: Json): int {
    ParseId(v).GetOr(0)
  }

  /** json_id */
  function IdJson(id: int): Json {
    Str(Decimal.Render(id))
  }

  lemma {:induction false} IdRoundTrip(id: int)
    requires I64_MIN <= id <= I64_MAX
    ensures IdOf(IdJson(id)) == id
  {
    Decimal.ParseInverse(id);
  }

  /** A number and its decimal text name the same row, whatever the number; beyond 64 bits neither names one. */
  lemma {:induction false} NumberOrText(n: int)
    ensures IdOf(Num(n)) == IdOf(Str(Decimal.Render(n))) == if I64_MIN <= n <= I64_MAX then n else 0
    ensures ParseId(Num(n)).Some? <==> I64_MIN <= n <= U64_MAX
    ensures ParseId(Str(Decimal.Render(n))).Some? <==> I64_MIN <= n <= I64_MAX
  {
    Decimal.ParseInverse(n);
  }

  /** A count that fits into 64 bits is read back, and any other reads as none. */
  lemma {:induction false} CountRead(n: int)
    ensures AsCount(Num(n)) == if n < I64_MIN || n > I64_MAX then 0 else n
  {
  }

  function StringifyKey(d: Doc, k: Key): Doc {
    if k in d && ParseId(d[k]).Some? then d[k := IdJson(ParseId(d[k]).value)] else d
  }

  /** stringify_row_ids: ids leave the cache as strings, which no client rounds. */
  function StringifyRowIds(d: Doc): Doc {
    StringifyKey(StringifyKey(d, Id), ChatId)
  }

  lemma {:induction false} StringifyKeyKeeps(d: Doc, k: Key)
    ensures var out := StringifyKey(d, k);
            && out.Keys == d.Keys && (forall j :: j in d && j != k ==> out[j] == d[j])
            && IdOf(Get(out, k)) == IdOf(Get(d, k)) && (ParseId(Get(d, k)).Some? ==> Get(out, k).Str?)
  {
    if k in d && ParseId(d[k]).Some? {
      IdRoundTrip(ParseId(d[k]).value);
    }
  }

  /** Writing ids as strings changes the form of the two ids and nothing else. */
  lemma {:induction false} StringifyKeeps(d: Doc)
    ensures var out := StringifyRowIds(d);
            && out.Keys == d.Keys && (forall k :: k in d && k != Id && k != ChatId ==> out[k] == d[k])
            && IdOf(Get(out, Id)) == IdOf(Get(d, Id)) && IdOf(Get(out, ChatId)) == IdOf(Get(d, ChatId))
            && (forall k :: k == Id || k == ChatId ==> ParseId(Get(d, k)).Some? ==> Get(out, k).Str?)
  {
    hide StringifyKey, ParseId, IdOf;
    var half := StringifyKey(d, Id);
    StringifyKeyKeeps(d, Id);
    StringifyKeyKeeps(half, ChatId);
    assert Get(half, ChatId) == Get(d, ChatId) && Get(StringifyRowIds(d), Id) == Get(half, Id);
  }

  // ---------------------------------------------------------------- the merge

  /** as_str with unwrap_or("") */
  function NameText(v: Json): string {
    AsStr(v).GetOr("")
  }

  predicate NotNull(v: Json) {
    v != Null
  }

  predicate NamesChat(v: Json) {
    IdOf(v) != 0
  }

  predicate HasText(v: Json) {
    NameText(v) != ""
  }

  predicate NamesPerson(v: Json) {
    IsPersonName(NameText(v))
  }

  /** The value of a key in an incoming document replaces the stored one. */
  predicate Accepts(stored: Doc, k: Key, v: Json) {
    && NotNull(v)
    && (k == ChatId ==> NamesChat(v))
    && (k == CreatedAt ==> HasText(v))
    && (k == SenderName ==> NamesPerson(v) || (HasText(v) && !NamesPerson(Get(stored, SenderName))))
  }

  function Merge(stored: Doc, incoming: Doc): Doc {
    map k | k in stored.Keys + incoming.Keys && (k in stored || Accepts(stored, k, incoming[k])) ::
      if k in incoming && Accepts(stored, k, incoming[k]) then incoming[k] else stored[k]
  }

  /** merge_message, on documents: the keys of the incoming object in any order. */
  method MergeMessage(existing: Option<Doc>, incoming: Doc) returns (out: Doc)
    ensures out == Merge(existing.GetOr(map[]), incoming)
  {
    ghost var stored := existing.GetOr(map[]);
    out := existing.GetOr(map[]);
    var keys := incoming.Keys;
    while keys != {}
      invariant keys <= incoming.Keys
      invariant forall k :: k in keys ==> Lookup(out, k) == Lookup(stored, k)
      invariant forall k :: k !in keys ==>
        Lookup(out, k) == if k in incoming && Accepts(stored, k, incoming[k]) then Some(incoming[k])
                          else Lookup(stored, k)
      decreases keys
    {
      var k :| k in keys;
      keys := keys - {k};
      var v := incoming[k];
      assert Get(out, k) == Get(stored, k);
      if v == Null {
        continue;
      }
      if k == ChatId && IdOf(v) == 0 {
        continue;
      }
      if k == CreatedAt && (!v.Str? || v.s == "") {
        continue;
      }
      if k == SenderName {
        var name := NameText(v);
        var known := NameText(Get(out, SenderName));
        if !IsPersonName(name) && (IsPersonName(known) || name == "") {
          continue;
        }
      }
      out := out[k := v];
    }
    assert forall k :: Lookup(out, k) == Lookup(Merge(stored, incoming), k);
    assert forall k :: k in out <==> Lookup(out, k).Some?;
    assert out.Keys == Merge(stored, incoming).Keys;
    forall k | k in out ensures out[k] == Merge(stored, incoming)[k] {
      assert Lookup(out, k) == Lookup(Merge(stored, incoming), k);
    }
  }

  /** Applying the same update again changes nothing, and no key ever disappears. */
  lemma {:induction false} MergeIdempotent(stored: Doc, incoming: Doc)
    ensures Merge(Merge(stored, incoming), incoming) == Merge(stored, incoming)
    ensures stored.Keys <= Merge(stored, incoming).Keys
  {
    var once := Merge(stored, incoming);
    var twice := Merge(once, incoming);
    forall k ensures Lookup(twice, k) == Lookup(once, k) {
    }
    assert forall k :: k in twice <==> Lookup(twice, k).Some?;
    assert forall k :: k in once <==> Lookup(once, k).Some?;
    forall k | k in once ensures k in twice && once[k] == twice[k] {
      assert Lookup(twice, k) == Lookup(once, k);
    }
  }

  // --------------------------------------------------- a message over its updates

  /** A message after a sequence of updates, from absent. */
  function Folded(updates: seq<Doc>): Doc {
    if updates == [] then map[] else Merge(Folded(updates[..|updates| - 1]), updates[|updates| - 1])
  }

  /** The last value of a key among the updates that passes a test. */
  function LastSuch(updates: seq<Doc>, k: Key, test: Json -> bool): Option<Json> {
    if updates == [] then None
    else
      var last := updates[|updates| - 1];
      if k in last && test(last[k]) then Some(last[k]) else LastSuch(updates[..|updates| - 1], k, test)
  }

  /**
   * What a merged message holds. An ordinary field holds its last non-null value, chat_id the
   * last one that parses to a non-zero id, created_at the last non-empty string.
   */
  lemma {:induction false} MergeIsAFold(updates: seq<Doc>, k: Key)
    requires k != SenderName
    ensures Lookup(Folded(updates), k) ==
            LastSuch(updates, k, if k == ChatId then NamesChat else if k == CreatedAt then HasText else NotNull)
  {
    if updates != [] {
      MergeIsAFold(updates[..|updates| - 1], k);
      assert !IsPersonName("");
    }
  }

  /** Its sender_name is the last name of a person, and while there is none the last non-empty string. */
  lemma {:induction false} SenderNameIsAFold(updates: seq<Doc>)
    ensures Lookup(Folded(updates), SenderName) ==
            LastSuch(updates, SenderName, NamesPerson).Or(LastSuch(updates, SenderName, HasText))
  {
    if updates != [] {
      var front := updates[..|updates| - 1];
      SenderNameIsAFold(front);
      LastPasses(front, SenderName, NamesPerson);
      LastNamesPerson(front);
      assert !IsPersonName("");
    }
  }

  lemma {:induction false} LastPasses(updates: seq<Doc>, k: Key, test: Json -> bool)
    ensures LastSuch(updates, k, test).Some? ==> test(LastSuch(updates, k, test).value)
  {
    if updates != [] {
      LastPasses(updates[..|updates| - 1], k, test);
    }
  }

  /** A name of a person is some text, so it is found among the texts too. */
  lemma {:induction false} LastNamesPerson(updates: seq<Doc>)
    ensures LastSuch(updates, SenderName, NamesPerson).None? && LastSuch(updates, SenderName, HasText).Some? ==>
              !NamesPerson(LastSuch(updates, SenderName, HasText).value)
  {
    if updates != [] {
      LastNamesPerson(updates[..|updates| - 1]);
    }
  }
}
