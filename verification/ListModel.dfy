/**
 * In-place reconciliation of the thread view (syncListModel in plugin/js/Store.js).
 * A row of the QML ListModel carries a key, so that "the same row" means more than
 * "an equal row": moving or updating a row keeps its key, inserting makes a new one.
 */
module ListModel {
  import opened Timeline

  datatype Row = Row(key: nat, entry: Msg)

  /** The model shows exactly these messages. */
  ghost predicate Shows(rows: seq<Row>, messages: seq<Msg>) {
    |rows| == |messages| && forall i :: 0 <= i < |rows| ==> rows[i].entry == messages[i]
  }

  ghost predicate DistinctRows(rows: seq<Row>) {
    forall i, j :: 0 <= i < j < |rows| ==> rows[i].entry.id != rows[j].entry.id
  }

  ghost predicate HasId(rows: seq<Row>, id: string) {
    exists i :: 0 <= i < |rows| && rows[i].entry.id == id
  }

  /** Rows have different keys, all of them taken. */
  ghost predicate KeysOk(rows: seq<Row>, nextKey: nat) {
    && (forall i :: 0 <= i < |rows| ==> rows[i].key < nextKey)
    && (forall i, j :: 0 <= i < j < |rows| ==> rows[i].key != rows[j].key)
  }

  /** The index of the first row with this id, or the number of rows. */
  function Find(rows: seq<Row>, id: string): (k: nat)
    ensures k <= |rows|
    ensures forall j :: 0 <= j < k ==> rows[j].entry.id != id
    ensures k < |rows| ==> rows[k].entry.id == id
  {
    if rows == [] then 0
    else if rows[0].entry.id == id then 0
    else 1 + Find(rows[1..], id)
  }

  function Drop(rows: seq<Row>, k: nat): seq<Row> {
    if k < |rows| then rows[..k] + rows[k + 1..] else rows
  }

  ghost predicate Wanted(messages: seq<Msg>, id: string) {
    exists i :: 0 <= i < |messages| && messages[i].id == id
  }

  /** The rows that no message stands behind, in their order. */
  ghost function Dropped(rows: seq<Row>, messages: seq<Msg>): seq<Row> {
    if rows == [] then []
    else if Wanted(messages, rows[0].entry.id) then Dropped(rows[1..], messages)
    else [rows[0]] + Dropped(rows[1..], messages)
  }

  /** The ids of the messages that no row has yet, in the order of the messages. */
  ghost function NewIds(messages: seq<Msg>, rows: seq<Row>): seq<string> {
    if messages == [] then []
    else
      var front, last := messages[..|messages| - 1], messages[|messages| - 1];
      NewIds(front, rows) + if HasId(rows, last.id) then [] else [last.id]
  }

  /** The ids of the messages whose row shows another payload, in the order of the messages. */
  ghost function StaleIds(messages: seq<Msg>, rows: seq<Row>): seq<string> {
    if messages == [] then []
    else
      var front, last := messages[..|messages| - 1], messages[|messages| - 1];
      StaleIds(front, rows) +
      if exists i :: 0 <= i < |rows| && rows[i].entry.id == last.id && rows[i].entry != last then [last.id] else []
  }

  /** The row of a message: the same row as before if its id had one, else a row made later. */
  ghost predicate StandsFor(row: Row, before: seq<Row>, bound: nat) {
    if HasId(before, row.entry.id)
    then exists j :: 0 <= j < |before| && before[j].key == row.key && before[j].entry.id == row.entry.id
    else row.key >= bound
  }

  /** How many rows are moved: those that are not the first of the rows that no earlier message of the list has. */
  ghost function MovesOf(messages: seq<Msg>, rows: seq<Row>): nat {
    if messages == [] then 0
    else
      var front, m := messages[..|messages| - 1], messages[|messages| - 1];
      var left := Dropped(rows, front);
      MovesOf(front, rows) + if HasId(rows, m.id) && left != [] && left[0].entry.id != m.id then 1 else 0
  }

  /** The operations of one reconciliation: ids inserted, ids updated in place, rows removed, and moves. */
  datatype Log = Log(inserted: seq<string>, updated: seq<string>, removed: seq<Row>, moves: nat)

  /** The rows with one of them moved forward, and the ones between shifted by one. */
  function BroughtForward(rows: seq<Row>, from: nat, to: nat): seq<Row>
    requires to <= from < |rows|
  {
    rows[..to] + [rows[from]] + rows[to..from] + rows[from + 1..]
  }

  class ListModel {
    var rows: seq<Row>
    /** Keys below this one are taken. */
    var nextKey: nat
    /** What was done since the last reconciliation began. */
    ghost var log: Log

    ghost predicate Valid()
      reads this
    {
      KeysOk(rows, nextKey)
    }

    constructor ()
      ensures Valid() && rows == []
    {
      rows, nextKey := [], 0;
      log := Log([], [], [], 0);
    }

    /** ListModel.insert */
    method InsertRow(at: nat, entry: Msg)
      requires at <= |rows|
      modifies this
      ensures rows == old(rows[..at] + [Row(nextKey, entry)] + rows[at..])
      ensures nextKey == old(nextKey) + 1
      ensures log == old(log).(inserted := old(log).inserted + [entry.id])
    {
      rows := rows[..at] + [Row(nextKey, entry)] + rows[at..];
      nextKey := nextKey + 1;
      log := log.(inserted := log.inserted + [entry.id]);
    }

    /** ListModel.move(from, to, 1) with to before from. */
    method MoveRow(from: nat, to: nat)
      requires to < from < |rows|
      modifies this
      ensures rows == BroughtForward(old(rows), from, to)
      ensures nextKey == old(nextKey) && log == old(log).(moves := old(log).moves + 1)
    {
      rows := rows[..to] + [rows[from]] + rows[to..from] + rows[from + 1..];
      log := log.(moves := log.moves + 1);
    }

    /** ListModel.set */
    method SetRow(at: nat, entry: Msg)
      requires at < |rows|
      modifies this
      ensures rows == old(rows[at := Row(rows[at].key, entry)])
      ensures nextKey == old(nextKey)
      ensures log == old(log).(updated := old(log).updated + [entry.id])
    {
      rows := rows[at := Row(rows[at].key, entry)];
      log := log.(updated := log.updated + [entry.id]);
    }

    /** ListModel.remove(at, count - at) */
    method Truncate(at: nat)
      requires at <= |rows|
      modifies this
      ensures rows == old(rows[..at]) && nextKey == old(nextKey)
      ensures log == old(log).(removed := old(log).removed + old(rows[at..]))
    {
      log := log.(removed := log.removed + rows[at..]);
      rows := rows[..at];
    }

    /** The inner loop: the first row from i on that has the id. */
    method SearchFrom(i: nat, id: string, ghost rest: seq<Row>) returns (found: nat)
      requires i <= |rows| && rest == rows[i..]
      ensures found == i + Find(rest, id)
    {
      found := i;
      while found < |rows| && rows[found].entry.id != id
        invariant i <= found <= |rows|
        invariant forall k :: 0 <= k < found - i ==> rest[k].entry.id != id
      {
        found := found + 1;
      }
      FindAt(rest, id, found - i);
    }

    /** The body of the loop of syncListModel: bring the row of one message to its place. */
    method SyncRow(i: nat, msg: Msg, ghost front: seq<Row>, ghost rest: seq<Row>)
      requires rows == front + rest && i == |front|
      modifies this
      ensures rows == front + [PlacedRow(rest, old(nextKey), msg)] + Drop(rest, Find(rest, msg.id))
      ensures nextKey == NextKey(rest, old(nextKey), msg) && log == NextLog(rest, old(log), msg)
    {
      var found := SearchFrom(i, msg.id, rest);
      if found == |rows| {
        assert rows[..i] == front && rows[i..] == rest;
        InsertRow(i, msg);
      } else {
        BringTo(i, found, front, rest);
        if rows[i].entry != msg {
          SetRow(i, msg);
          assert rows == front + [Row(rest[found - i].key, msg)] + Drop(rest, found - i);
        }
      }
    }

    /** The move of a row that was found, which is none when it is in its place already. */
    method BringTo(i: nat, found: nat, ghost front: seq<Row>, ghost rest: seq<Row>)
      requires rows == front + rest && i == |front| && i <= found < |rows|
      modifies this
      ensures rows == front + [rest[found - i]] + Drop(rest, found - i)
      ensures nextKey == old(nextKey) && log == old(log).(moves := old(log).moves + (if found != i then 1 else 0))
    {
      hide BroughtForward, Drop;
      RowMoves(front, rest, found - i);
      if found != i {
        MoveRow(found, i);
      }
    }

    /**
     * syncListModel. Whatever the model and the list are, the model ends equal to the
     * list, and a model already equal to it is not touched. When ids are distinct on
     * both sides, a row whose id is on both sides survives as the same row and is
     * updated only if its payload changed, the inserts are exactly the new ids and the
     * removals exactly the dropped rows, and a row moves only past rows that no earlier message of the list has.
     */
    method SyncListModel(messages: seq<Msg>)
      requires Valid()
      modifies this
      ensures Valid()
      ensures Shows(rows, messages)
      ensures Shows(old(rows), messages) ==>
        rows == old(rows) && nextKey == old(nextKey) && log == Log([], [], [], 0)
      ensures DistinctRows(old(rows)) && DistinctIds(messages) ==>
        && (forall i :: 0 <= i < |rows| ==> StandsFor(rows[i], old(rows), old(nextKey)))
        && log.inserted == NewIds(messages, old(rows))
        && log.updated == StaleIds(messages, old(rows))
        && log.removed == Dropped(old(rows), messages)
        && log.moves == MovesOf(messages, old(rows))
    {
      log := Log([], [], [], 0);
      ghost var before, bound := rows, nextKey;
      ghost var done: seq<Row>, rest := [], rows;
      NothingWanted(before);
      assert messages[..0] == [];
      for i := 0 to |messages|
        invariant rows == done + rest && |done| == i
        invariant Reached(before, bound, messages, i, done, rest, nextKey, log)
      {
        ReachedNext(before, bound, messages, i, done, rest, nextKey, log);
        ghost var row := PlacedRow(rest, nextKey, messages[i]);
        SyncRow(i, messages[i], done, rest);
        done, rest := done + [row], Drop(rest, Find(rest, messages[i].id));
      }
      assert messages[..|messages|] == messages;
      KeysOfParts(done, rest, nextKey);
      if |rows| > |messages| {
        Truncate(|messages|);
      }
      assert rows == done;
    }
  }

  /** The row that the loop body leaves at the front for a message, and what else it changes. */
  function PlacedRow(rest: seq<Row>, nextKey: nat, m: Msg): Row {
    var k := Find(rest, m.id);
    Row(if k < |rest| then rest[k].key else nextKey, m)
  }

  function NextKey(rest: seq<Row>, nextKey: nat, m: Msg): nat {
    if Find(rest, m.id) < |rest| then nextKey else nextKey + 1
  }

  function NextLog(rest: seq<Row>, log: Log, m: Msg): Log {
    var k := Find(rest, m.id);
    if k == |rest| then log.(inserted := log.inserted + [m.id])
    else log.(updated := log.updated + (if rest[k].entry != m then [m.id] else []),
              moves := log.moves + (if k != 0 then 1 else 0))
  }

  /** The state of the loop after the first i messages. */
  ghost predicate Reached(before: seq<Row>, bound: nat, messages: seq<Msg>, i: nat,
                          done: seq<Row>, rest: seq<Row>, nextKey: nat, log: Log)
  {
    && i <= |messages|
    && KeysOk(done + rest, nextKey) && nextKey >= bound && log.removed == []
    && Shows(done, messages[..i])
    && (Shows(before, messages) ==> done + rest == before && nextKey == bound && log == Log([], [], [], 0))
    && (DistinctRows(before) && DistinctIds(messages) ==>
          Reconciled(before, bound, messages[..i], done, rest, log.inserted, log.updated, log.moves))
  }

  lemma {:induction false} ReachedNext(before: seq<Row>, bound: nat, messages: seq<Msg>, i: nat,
                                       done: seq<Row>, rest: seq<Row>, nextKey: nat, log: Log)
    requires i < |messages| && Reached(before, bound, messages, i, done, rest, nextKey, log)
    ensures var m := messages[i];
            Reached(before, bound, messages, i + 1, done + [PlacedRow(rest, nextKey, m)],
                    Drop(rest, Find(rest, m.id)), NextKey(rest, nextKey, m), NextLog(rest, log, m))
  {
    var m := messages[i];
    var row := PlacedRow(rest, nextKey, m);
    SyncRowKeys(done, rest, nextKey, m);
    ShowsNext(done, messages, i, row);
    if DistinctRows(before) && DistinctIds(messages) {
      ReconcileNext(before, bound, messages, i, done, rest, log.inserted, log.updated, log.moves, row);
    }
    if Shows(before, messages) {
      assert rest[0] == before[i];
    }
  }

  lemma {:induction false} ShowsNext(done: seq<Row>, messages: seq<Msg>, i: nat, row: Row)
    requires i < |messages| && Shows(done, messages[..i]) && row.entry == messages[i]
    ensures Shows(done + [row], messages[..i + 1])
  {
  }

  /** With distinct ids: the rows in place and left over after the messages of the list so far. */
  ghost predicate Reconciled(before: seq<Row>, bound: nat, messages: seq<Msg>,
                             done: seq<Row>, rest: seq<Row>, ins: seq<string>, upd: seq<string>, moves: nat)
  {
    && rest == Dropped(before, messages)
    && (forall k :: 0 <= k < |done| ==> StandsFor(done[k], before, bound))
    && ins == NewIds(messages, before)
    && upd == StaleIds(messages, before) && moves == MovesOf(messages, before)
  }

  lemma {:induction false} ReconcileNext(before: seq<Row>, bound: nat, messages: seq<Msg>, i: nat,
                                         done: seq<Row>, rest: seq<Row>, ins: seq<string>, upd: seq<string>,
                                         moves: nat, row: Row)
    requires DistinctRows(before) && DistinctIds(messages) && i < |messages|
    requires Reconciled(before, bound, messages[..i], done, rest, ins, upd, moves)
    requires row.entry == messages[i]
    requires var k := Find(rest, messages[i].id);
             if k < |rest| then row.key == rest[k].key else row.key >= bound
    ensures var m := messages[i];
            var k := Find(rest, m.id);
            Reconciled(before, bound, messages[..i + 1], done + [row], Drop(rest, k),
                       if k == |rest| then ins + [m.id] else ins,
                       if k < |rest| && rest[k].entry != m then upd + [m.id] else upd,
                       moves + if k < |rest| && k != 0 then 1 else 0)
  {
    NextMessage(before, messages, i, rest);
    assert messages[..i + 1][..i] == messages[..i];
    assert StandsFor(row, before, bound);
  }

  /** A move, seen on the rows in place and the rows left over. */
  lemma {:induction false} RowMoves(front: seq<Row>, rest: seq<Row>, k: nat)
    requires k < |rest|
    ensures var all, i := front + rest, |front|;
            && all[i + k] == rest[k]
            && BroughtForward(all, i + k, i) == front + [rest[k]] + Drop(rest, k)
    ensures k == 0 ==> front + rest == front + [rest[0]] + Drop(rest, 0)
  {
    var all, i := front + rest, |front|;
    assert all[..i] == front && all[i..i + k] == rest[..k] && all[i + k + 1..] == rest[k + 1..];
    var a, b, c := front + [rest[k]], rest[..k], rest[k + 1..];
    assert BroughtForward(all, i + k, i) == a + b + c;
    assert a + b + c == a + (b + c);
    if k == 0 {
      assert rest == [rest[0]] + c && b == [];
      assert front + ([rest[0]] + c) == a + c;
    }
  }

  lemma {:induction false} FindAt(rows: seq<Row>, id: string, k: nat)
    requires k <= |rows| && forall j :: 0 <= j < k ==> rows[j].entry.id != id
    requires k < |rows| ==> rows[k].entry.id == id
    ensures Find(rows, id) == k
  {
    assert !(Find(rows, id) < k);
  }

  /** Placing one row keeps the keys apart, and changes nothing where the row is already right. */
  lemma {:induction false} SyncRowKeys(front: seq<Row>, rest: seq<Row>, nextKey: nat, m: Msg)
    requires KeysOk(front + rest, nextKey)
    ensures KeysOk(front + [PlacedRow(rest, nextKey, m)] + Drop(rest, Find(rest, m.id)), NextKey(rest, nextKey, m))
    ensures rest != [] && rest[0].entry == m ==> front + [Row(rest[0].key, m)] + Drop(rest, 0) == front + rest
  {
    var k := Find(rest, m.id);
    var out := front + [PlacedRow(rest, nextKey, m)] + Drop(rest, k);
    KeysOfParts(front, rest, nextKey);
    PlacedKeys(front, rest, nextKey, k, PlacedRow(rest, nextKey, m).key);
    forall i | 0 <= i < |out|
      ensures out[i].key == if i < |front| then front[i].key
                            else if i == |front| then PlacedRow(rest, nextKey, m).key
                            else Drop(rest, k)[i - |front| - 1].key
    {
    }
  }

  lemma {:induction false} PlacedKeys(front: seq<Row>, rest: seq<Row>, nextKey: nat, k: nat, key: nat)
    requires KeysOk(front, nextKey) && KeysOk(rest, nextKey) && k <= |rest|
    requires forall i, j :: 0 <= i < |front| && 0 <= j < |rest| ==> front[i].key != rest[j].key
    requires key == if k < |rest| then rest[k].key else nextKey
    ensures KeysOk(Drop(rest, k), nextKey)
    ensures forall j :: 0 <= j < |Drop(rest, k)| ==> Drop(rest, k)[j].key != key
    ensures forall i :: 0 <= i < |front| ==> front[i].key != key
    ensures forall i, j :: 0 <= i < |front| && 0 <= j < |Drop(rest, k)| ==> front[i].key != Drop(rest, k)[j].key
  {
    var out := Drop(rest, k);
    assert forall j :: 0 <= j < |out| ==> out[j] == if j < k then rest[j] else rest[j + 1];
  }

  lemma {:induction false} KeysOfParts(a: seq<Row>, b: seq<Row>, nextKey: nat)
    ensures KeysOk(a + b, nextKey) <==>
            && KeysOk(a, nextKey) && KeysOk(b, nextKey)
            && forall i, j :: 0 <= i < |a| && 0 <= j < |b| ==> a[i].key != b[j].key
  {
    var all := a + b;
    assert forall i :: 0 <= i < |a| ==> all[i] == a[i];
    assert forall j :: 0 <= j < |b| ==> all[|a| + j] == b[j];
  }

  lemma {:induction false} NothingWanted(rows: seq<Row>)
    ensures Dropped(rows, []) == rows
  {
    if rows != [] {
      NothingWanted(rows[1..]);
    }
  }

  lemma {:induction false} DroppedMembers(rows: seq<Row>, messages: seq<Msg>)
    ensures forall r :: r in Dropped(rows, messages) <==> r in rows && !Wanted(messages, r.entry.id)
  {
    if rows != [] {
      DroppedMembers(rows[1..], messages);
      assert rows == [rows[0]] + rows[1..];
    }
  }

  lemma {:induction false} DropShift(r: Row, rest: seq<Row>, k: nat)
    requires k <= |rest|
    ensures Drop([r] + rest, k + 1) == [r] + Drop(rest, k)
  {
    var all := [r] + rest;
    if k < |rest| {
      assert all[..k + 1] == [r] + rest[..k];
      assert all[k + 2..] == rest[k + 1..];
    }
  }

  lemma {:induction false} DropCons(r: Row, rest: seq<Row>, id: string)
    ensures var all := [r] + rest;
            Drop(all, Find(all, id)) == if r.entry.id == id then rest else [r] + Drop(rest, Find(rest, id))
  {
    var all := [r] + rest;
    assert all[1..] == rest;
    if r.entry.id == id {
      assert Drop(all, 0) == rest;
    } else {
      DropShift(r, rest, Find(rest, id));
    }
  }

  /** A row with the first id of a list with distinct ids is not dropped twice. */
  lemma {:induction false} NoneAfterFirst(rows: seq<Row>, messages: seq<Msg>)
    requires rows != [] && DistinctRows(rows)
    ensures Find(Dropped(rows[1..], messages), rows[0].entry.id) == |Dropped(rows[1..], messages)|
  {
    var rest := Dropped(rows[1..], messages);
    DroppedMembers(rows[1..], messages);
    forall j | 0 <= j < |rest| ensures rest[j].entry.id != rows[0].entry.id {
      assert rest[j] in rest;
      var k :| 0 <= k < |rows[1..]| && rows[1..][k] == rest[j];
      assert rows[k + 1] == rest[j];
    }
    FindAt(rest, rows[0].entry.id, |rest|);
  }

  /** One more message wanted: its row, if there is one, is no longer dropped. */
  lemma {:induction false} WantOneMore(rows: seq<Row>, messages: seq<Msg>, m: Msg)
    requires DistinctRows(rows)
    ensures Dropped(rows, messages + [m]) == Drop(Dropped(rows, messages), Find(Dropped(rows, messages), m.id))
  {
    if rows != [] {
      var rest := Dropped(rows[1..], messages);
      WantOneMore(rows[1..], messages, m);
      WantedSnoc(messages, m, rows[0].entry.id);
      DropCons(rows[0], rest, m.id);
      if rows[0].entry.id == m.id {
        NoneAfterFirst(rows, messages);
      }
    }
  }

  lemma {:induction false} WantedSnoc(messages: seq<Msg>, m: Msg, id: string)
    ensures Wanted(messages + [m], id) <==> Wanted(messages, id) || m.id == id
  {
    var all := messages + [m];
    assert all[|messages|] == m;
    if Wanted(messages, id) {
      var i :| 0 <= i < |messages| && messages[i].id == id;
      assert all[i].id == id;
    }
  }

  /**
   * One round of the loop, with distinct ids: the search over the rows left finds the
   * old row with the id if there is one, and what it leaves are the rows of the later
   * messages and the dropped ones.
   */
  lemma {:induction false} NextMessage(before: seq<Row>, messages: seq<Msg>, i: nat, rest: seq<Row>)
    requires DistinctRows(before) && DistinctIds(messages) && i < |messages|
    requires rest == Dropped(before, messages[..i])
    ensures var k := Find(rest, messages[i].id);
            && (k < |rest| <==> HasId(before, messages[i].id))
            && (k < |rest| ==> rest[k] in before)
            && (k < |rest| && rest[k].entry != messages[i] <==>
                exists j :: 0 <= j < |before| && before[j].entry.id == messages[i].id && before[j].entry != messages[i])
            && Dropped(before, messages[..i + 1]) == Drop(rest, k)
  {
    var m := messages[i];
    var k := Find(rest, m.id);
    DroppedMembers(before, messages[..i]);
    WantOneMore(before, messages[..i], m);
    assert messages[..i + 1] == messages[..i] + [m];
    if k < |rest| {
      assert rest[k] in before;
    }
    if HasId(before, m.id) {
      var j :| 0 <= j < |before| && before[j].entry.id == m.id;
      assert !Wanted(messages[..i], m.id);
      assert before[j] in rest;
    }
  }
}
