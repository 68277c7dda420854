/**
 * The records of sync/src/domain.rs. The digest behind stable_id and the alphabetic
 * characters of Unicode are constants of which nothing is known: every statement
 * holds for any digest, collisions included, and any choice of letters.
 */
module Domain {
  import opened Prelude

  datatype Handle = Handle(address: string, service: Option<string>, name: Option<string>)

  datatype Attachment = Attachment(guid: string, mime: Option<string>, name: Option<string>)

  datatype Message = Message(guid: string, chat: string, text: string, createdAt: string, isFromMe: bool,
                             sender: Option<Handle>, attachments: seq<Attachment>)

  datatype Chat = Chat(guid: string, identifier: string, displayName: Option<string>, participants: seq<Handle>,
                       lastMessageAt: Option<string>, unreadCount: nat, isGroup: bool)

  /** char::is_alphabetic */
  const IsAlphabetic: char -> bool

  predicate IsPersonName(s: string) {
    exists i :: 0 <= i < |s| && IsAlphabetic(s[i])
  }

  /** The first eight bytes of the digest of a guid, as an unsigned integer. */
  const Digest: string -> nat

  function StableId(guid: string): (id: int)
    ensures 1 <= id <= I64_MAX
  {
    var n := Digest(guid) % (I64_MAX + 1);
    if n == 0 then 1 else n
  }

  /** The name of a person is a text with a letter in it, wherever it stands. */
  lemma {:induction false} PersonNameOfConcat(a: string, b: string, c: char)
    ensures IsPersonName(a + [c] + b) <==> IsAlphabetic(c) || IsPersonName(a + b)
    ensures !IsPersonName("")
  {
    var all, rest := a + [c] + b, a + b;
    assert all[|a|] == c;
    forall i | 0 <= i < |rest| ensures rest[i] == all[if i < |a| then i else i + 1] {
    }
    forall i | 0 <= i < |all| && i != |a| ensures all[i] == rest[if i < |a| then i else i - 1] {
    }
  }

  /** Two guids have the same id exactly if the low 63 bits of their digests agree, where 0 counts as 1. */
  lemma {:induction false} SameStableId(a: string, b: string)
    ensures var x, y := Digest(a) % 0x8000_0000_0000_0000, Digest(b) % 0x8000_0000_0000_0000;
            StableId(a) == StableId(b) <==> x == y || {x, y} == {0, 1}
  {
  }
}
