/**
 * Conservation of unread counts, over every run of the cache's statements: a count is its
 * base plus the inbound messages that the live path was the first to store since then.
 */
module Unread {
  import opened Prelude
  import opened Documents
  import opened Tables

  predicate MakesChat(op: Op, chat: int) {
    op.UpsertChat? && IdOf(Get(op.doc, Id)) == chat
  }

  ghost predicate StoredIn(ops: seq<Op>, id: int) {
    exists u :: 0 <= u < |ops| && Stores(ops[u], id)
  }

  ghost predicate ChatIn(ops: seq<Op>, chat: int) {
    exists u :: 0 <= u < |ops| && MakesChat(ops[u], chat)
  }

  /** After some statements, op is a live message from someone else, of this chat, that nothing stored before. */
  ghost predicate FirstInbound(before: seq<Op>, op: Op, chat: int) {
    && op.Live? && !StoredIn(before, IdOf(Get(op.doc, Id)))
    && IdOf(Get(op.doc, ChatId)) == chat && !AsBool(Get(op.doc, IsFromMe))
  }

  /** After some statements, op sets the count of the chat: it makes the chat, or marks it read. */
  ghost predicate Resets(before: seq<Op>, op: Op, chat: int) {
    if ChatIn(before, chat) then op == MarkRead(chat) else MakesChat(op, chat)
  }

  /** The count that a reset sets: the server's count of a new chat, zero for a chat that was read. */
  function Base(op: Op): int {
    if op.UpsertChat? then AsCount(Get(op.doc, UnreadCount)) else 0
  }

  ghost predicate ResetAt(ops: seq<Op>, t: nat, chat: int)
    requires t < |ops|
  {
    Resets(ops[..t], ops[t], chat)
  }

  ghost predicate LastResetAt(ops: seq<Op>, t: nat, chat: int)
    requires t < |ops|
  {
    ResetAt(ops, t, chat) && forall u :: t < u < |ops| ==> !ResetAt(ops, u, chat)
  }

  /** When the inbound messages of a chat after the statement at t were first stored. */
  ghost function CountedSince(ops: seq<Op>, t: nat, chat: int): set<nat> {
    set u: nat | t < u < |ops| && FirstInbound(ops[..u], ops[u], chat)
  }

  /** What is stored is what some statement stored. */
  lemma {:induction false} KeysOfRun(ops: seq<Op>)
    ensures forall id :: id in Run(EMPTY, ops).messages <==> StoredIn(ops, id)
    ensures forall chat :: chat in Run(EMPTY, ops).chats <==> ChatIn(ops, chat)
  {
    if ops != [] {
      var front, op := ops[..|ops| - 1], ops[|ops| - 1];
      KeysOfRun(front);
      ProjectionsAgree(front);
      KeysOfStep(Run(EMPTY, front), op);
      forall id ensures StoredIn(ops, id) <==> StoredIn(front, id) || Stores(op, id) {
        SnocStored(front, op, id);
        assert ops == front + [op];
      }
      forall chat ensures ChatIn(ops, chat) <==> ChatIn(front, chat) || MakesChat(op, chat) {
        SnocChat(front, op, chat);
        assert ops == front + [op];
      }
    }
  }

  lemma {:induction false} KeysOfStep(db: Db, op: Op)
    requires Agrees(db)
    ensures forall id :: id in Step(db, op).messages <==> id in db.messages || Stores(op, id)
    ensures forall chat :: chat in Step(db, op).chats <==> chat in db.chats || MakesChat(op, chat)
  {
    if op.UpsertMessage? || op.Live? {
      StoreMessageAgrees(db, op.doc);
    }
  }

  lemma {:induction false} SnocStored(front: seq<Op>, op: Op, id: int)
    ensures StoredIn(front + [op], id) <==> StoredIn(front, id) || Stores(op, id)
  {
    var all := front + [op];
    assert all[|front|] == op;
    assert forall u :: 0 <= u < |front| ==> all[u] == front[u];
  }

  lemma {:induction false} SnocChat(front: seq<Op>, op: Op, chat: int)
    ensures ChatIn(front + [op], chat) <==> ChatIn(front, chat) || MakesChat(op, chat)
  {
    var all := front + [op];
    assert all[|front|] == op;
    assert forall u :: 0 <= u < |front| ==> all[u] == front[u];
  }

  /** The effect of one statement on the count of one chat. */
  lemma {:induction false} CountOfStep(before: seq<Op>, op: Op, chat: int)
    requires var db := Run(EMPTY, before); chat in Step(db, op).chats
    ensures Resets(before, op, chat) ==> Step(Run(EMPTY, before), op).chats[chat].unread == Base(op)
    ensures !Resets(before, op, chat) ==>
              var db := Run(EMPTY, before);
              && chat in db.chats
              && Step(db, op).chats[chat].unread ==
                 if FirstInbound(before, op, chat) then Min(db.chats[chat].unread + 1, I64_MAX)
                 else db.chats[chat].unread
  {
    var db := Run(EMPTY, before);
    ProjectionsAgree(before);
    KeysOfRun(before);
    KeysOfStep(db, op);
    if op.Live? && chat in db.chats {
      CountOfLive(db, op.doc, chat);
    }
  }

  lemma {:induction false} CountOfLive(db: Db, doc: Doc, chat: int)
    requires Agrees(db) && chat in db.chats
    ensures ApplyLive(db, doc).chats[chat].unread ==
            if IdOf(Get(doc, Id)) !in db.messages && IdOf(Get(doc, ChatId)) == chat && !AsBool(Get(doc, IsFromMe))
            then Min(db.chats[chat].unread + 1, I64_MAX) else db.chats[chat].unread
  {
    assert ChatAgrees(chat, db.chats[chat]);
    if IdOf(Get(doc, Id)) !in db.messages {
      var merged := Merged(db, doc);
      assert merged == Merge(map[], doc);
      assert IdOf(Get(merged, ChatId)) == IdOf(Get(doc, ChatId));
      assert AsBool(Get(merged, IsFromMe)) == AsBool(Get(doc, IsFromMe));
    }
  }

  lemma {:induction false} CountedSnoc(front: seq<Op>, op: Op, t: nat, chat: int)
    requires t < |front|
    ensures CountedSince(front + [op], t, chat) ==
            CountedSince(front, t, chat) + if FirstInbound(front, op, chat) then {|front|} else {}
  {
    var all := front + [op];
    assert all[..|front|] == front && all[|front|] == op;
    assert forall u :: 0 <= u < |front| ==> all[..u] == front[..u] && all[u] == front[u];
  }

  lemma {:induction false} LastResetSnoc(front: seq<Op>, op: Op, t: nat, chat: int)
    requires t < |front| && LastResetAt(front, t, chat) && !Resets(front, op, chat)
    ensures LastResetAt(front + [op], t, chat)
  {
    var all := front + [op];
    assert all[..|front|] == front;
    forall u | 0 <= u < |front| ensures ResetAt(all, u, chat) <==> ResetAt(front, u, chat) {
      assert all[..u] == front[..u];
    }
  }

  lemma {:induction false} LastResetNow(front: seq<Op>, op: Op, chat: int)
    requires Resets(front, op, chat)
    ensures LastResetAt(front + [op], |front|, chat) && CountedSince(front + [op], |front|, chat) == {}
  {
    assert (front + [op])[..|front|] == front;
  }

  /**
   * Unread conservation: in every run, a chat has a count exactly when it was reset, and the
   * count is the base of its last reset plus the inbound messages that the live path was the
   * first to store since then, saturating at the largest 64-bit integer.
   */
  lemma {:induction false} CountIsConserved(ops: seq<Op>, chat: int) returns (t: nat)
    requires chat in Run(EMPTY, ops).chats
    ensures t < |ops| && LastResetAt(ops, t, chat)
    ensures Run(EMPTY, ops).chats[chat].unread == Min(Base(ops[t]) + |CountedSince(ops, t, chat)|, I64_MAX)
  {
    var front, op := ops[..|ops| - 1], ops[|ops| - 1];
    assert ops == front + [op];
    CountOfStep(front, op, chat);
    if Resets(front, op, chat) {
      t := |front|;
      LastResetNow(front, op, chat);
    } else {
      t := CountIsConserved(front, chat);
      LastResetSnoc(front, op, t, chat);
      CountedSnoc(front, op, t, chat);
      assert |front| !in CountedSince(front, t, chat);
    }
  }

  /** The messages counted are different ones. */
  lemma {:induction false} CountedAreDistinct(ops: seq<Op>, t: nat, chat: int, u: nat, v: nat)
    requires u in CountedSince(ops, t, chat) && v in CountedSince(ops, t, chat) && u < v
    ensures IdOf(Get(ops[u].doc, Id)) != IdOf(Get(ops[v].doc, Id))
  {
    assert ops[..v][u] == ops[u];
    assert Stores(ops[..v][u], IdOf(Get(ops[u].doc, Id)));
  }
}
