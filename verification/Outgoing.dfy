/** The outgoing list of plugin/js/Store.js: rows waiting to be sent, in flight, or not confirmed. */
module Outgoing {
  import opened Prelude

  datatype SendState = Queued | Sending | Failed | Unconfirmed

  datatype Row = Row(id: string, chatId: string, text: string, localPath: string,
                     createdAt: string, sendState: SendState, sendError: string)

  ghost predicate HasId(rows: seq<Row>, id: string) {
    exists i :: 0 <= i < |rows| && rows[i].id == id
  }

  ghost predicate DistinctIds(rows: seq<Row>) {
    forall i, j :: 0 <= i < j < |rows| ==> rows[i].id != rows[j].id
  }

  /** The index of the first row with this id, or the number of rows. */
  function Find(rows: seq<Row>, id: string): (k: nat)
    ensures k <= |rows|
    ensures forall j :: 0 <= j < k ==> rows[j].id != id
    ensures k < |rows| ==> rows[k].id == id
  {
    if rows == [] then 0
    else if rows[0].id == id then 0
    else 1 + Find(rows[1..], id)
  }

  /** The index of the first queued row, or the number of rows. */
  function FirstQueued(rows: seq<Row>): (k: nat)
    ensures k <= |rows|
    ensures forall j :: 0 <= j < k ==> rows[j].sendState != Queued
    ensures k < |rows| ==> rows[k].sendState == Queued
  {
    if rows == [] then 0
    else if rows[0].sendState == Queued then 0
    else 1 + FirstQueued(rows[1..])
  }

  /** What updateOutgoing returns. */
  function Updated(rows: seq<Row>, id: string, state: SendState, error: string): seq<Row> {
    var k := Find(rows, id);
    if k < |rows| then rows[k := rows[k].(sendState := state, sendError := error)] else rows
  }

  /** What removeOutgoing returns. */
  function Removed(rows: seq<Row>, id: string): (out: seq<Row>)
    ensures |out| <= |rows|
  {
    if rows == [] then []
    else
      var front, last := rows[..|rows| - 1], rows[|rows| - 1];
      if last.id == id then Removed(front, id) else Removed(front, id) + [last]
  }

  predicate CanRetry(rows: seq<Row>, id: string) {
    var k := Find(rows, id);
    k < |rows| && (rows[k].sendState == Failed || rows[k].sendState == Unconfirmed)
  }

  /** What retryOutgoing returns. */
  function Retried(rows: seq<Row>, id: string, nextId: string, createdAt: string): seq<Row> {
    var k := Find(rows, id);
    if CanRetry(rows, id)
    then rows[k := rows[k].(id := nextId, sendState := Queued, sendError := "", createdAt := createdAt)]
    else rows
  }

  lemma {:induction false} FindUnique(rows: seq<Row>, id: string, k: nat)
    requires k < |rows| && rows[k].id == id && DistinctIds(rows)
    ensures Find(rows, id) == k
  {
  }

  /** Removing an id keeps exactly the other rows, and leaves none of the id. */
  lemma {:induction false} RemovedMeaning(rows: seq<Row>, id: string)
    ensures forall r :: r in Removed(rows, id) <==> r in rows && r.id != id
    ensures !HasId(Removed(rows, id), id)
  {
    if rows != [] {
      RemovedMeaning(rows[..|rows| - 1], id);
      assert rows == rows[..|rows| - 1] + [rows[|rows| - 1]];
    }
    assert forall i :: 0 <= i < |Removed(rows, id)| ==> Removed(rows, id)[i] in Removed(rows, id);
  }

  /** Rows that stay keep their order: two of them stood in the same order before, at these places. */
  lemma {:induction false} RemovedInOrder(rows: seq<Row>, id: string, i: nat, j: nat) returns (a: nat, b: nat)
    requires i < j < |Removed(rows, id)|
    ensures a < b < |rows| && rows[a] == Removed(rows, id)[i] && rows[b] == Removed(rows, id)[j]
  {
    var front := rows[..|rows| - 1];
    if j < |Removed(front, id)| {
      a, b := RemovedInOrder(front, id, i, j);
    } else {
      RemovedMeaning(front, id);
      assert Removed(front, id)[i] in front;
      a :| 0 <= a < |front| && front[a] == Removed(front, id)[i];
      b := |rows| - 1;
    }
  }

  lemma {:induction false} RemovedDistinct(rows: seq<Row>, id: string)
    requires DistinctIds(rows)
    ensures DistinctIds(Removed(rows, id))
  {
    var out := Removed(rows, id);
    forall i, j | 0 <= i < j < |out| ensures out[i].id != out[j].id {
      var a, b := RemovedInOrder(rows, id, i, j);
    }
  }

  method NextQueuedOutgoing(outgoing: seq<Row>) returns (row: Option<Row>)
    ensures var k := FirstQueued(outgoing); row == if k < |outgoing| then Some(outgoing[k]) else None
  {
    for i := 0 to |outgoing|
      invariant forall j :: 0 <= j < i ==> outgoing[j].sendState != Queued
    {
      if outgoing[i].sendState == Queued {
        return Some(outgoing[i]);
      }
    }
    return None;
  }

  method UpdateOutgoing(outgoing: seq<Row>, id: string, state: SendState, error: string) returns (next: seq<Row>)
    ensures next == Updated(outgoing, id, state, error)
  {
    next := outgoing;
    for i := 0 to |next|
      invariant next == outgoing
      invariant forall j :: 0 <= j < i ==> outgoing[j].id != id
    {
      if next[i].id != id {
        continue;
      }
      next := next[i := next[i].(sendState := state, sendError := error)];
      break;
    }
  }

  method RemoveOutgoing(outgoing: seq<Row>, id: string) returns (next: seq<Row>)
    ensures next == Removed(outgoing, id)
  {
    next := [];
    for i := 0 to |outgoing|
      invariant next == Removed(outgoing[..i], id)
    {
      assert outgoing[..i + 1][..i] == outgoing[..i];
      if outgoing[i].id != id {
        next := next + [outgoing[i]];
      }
    }
    assert outgoing[..|outgoing|] == outgoing;
  }

  method RetryOutgoing(outgoing: seq<Row>, id: string, nextId: string, createdAt: string) returns (next: seq<Row>)
    ensures next == Retried(outgoing, id, nextId, createdAt)
  {
    next := outgoing;
    for i := 0 to |next|
      invariant next == outgoing
      invariant forall j :: 0 <= j < i ==> outgoing[j].id != id
    {
      if next[i].id != id {
        continue;
      }
      if next[i].sendState != Failed && next[i].sendState != Unconfirmed {
        return outgoing;
      }
      next := next[i := next[i].(id := nextId, sendState := Queued, sendError := "", createdAt := createdAt)];
      break;
    }
  }
}
