/**
 * Ids for guids (id_for_guid in sync/src/cache.rs): a digest of the guid, and when that is
 * taken the next free number. The statements of concurrent calls and of other writers may
 * be interleaved in any way; each statement is atomic.
 */
module Identities {
  import opened Prelude
  import opened Domain
  import opened Tables

  type Ids = map<string, int>

  ghost predicate Injective(ids: Ids) {
    forall g, h :: g in ids && h in ids && g != h ==> ids[g] != ids[h]
  }

  /** Ids are 64-bit integers. */
  ghost predicate InRange(ids: Ids) {
    forall g :: g in ids ==> I64_MIN <= ids[g] <= I64_MAX
  }

  ghost predicate IsMax(ids: Ids, m: int) {
    if ids == map[] then m == 0 else m in ids.Values && forall v :: v in ids.Values ==> v <= m
  }

  lemma {:induction false} MaxExists(ids: Ids)
    requires ids != map[]
    ensures exists g :: g in ids && forall h :: h in ids ==> ids[h] <= ids[g]
  {
    var x :| x in ids;
    var rest := ids - {x};
    if rest == map[] {
      forall h | h in ids ensures h == x {
        assert h !in rest;
      }
    } else {
      MaxExists(rest);
      var m :| m in rest && forall h :: h in rest ==> rest[h] <= rest[m];
      var max := if ids[m] > ids[x] then m else x;
      forall h | h in ids ensures ids[h] <= ids[max] {
        assert h == x || h in rest;
      }
    }
  }

  /** SELECT COALESCE(MAX(id), 0) */
  ghost function MaxId(ids: Ids): (m: int)
    ensures IsMax(ids, m)
  {
    if ids == map[] then 0
    else
      MaxExists(ids);
      var g :| g in ids && forall h :: h in ids ==> ids[h] <= ids[g];
      assert ids[g] in ids.Values;
      ids[g]
  }

  /** max.saturating_add(1).max(1) */
  function After(max: int): int {
    var next := Min(max + 1, I64_MAX);
    if next > 1 then next else 1
  }

  /** The id that a call running alone returns, if it returns. */
  ghost function Allocated(ids: Ids, guid: string): Option<int> {
    if guid in ids then Some(ids[guid])
    else if StableId(guid) !in ids.Values then Some(StableId(guid))
    else if MaxId(ids) < I64_MAX then Some(After(MaxId(ids)))
    else None
  }

  /** What a call running alone returns is the id of the guid from then on, and of no other guid. */
  lemma {:induction false} AllocatedIsOwn(ids: Ids, guid: string)
    requires Injective(ids) && InRange(ids) && Allocated(ids, guid).Some?
    ensures var id := Allocated(ids, guid).value;
            var later := InsertOrIgnore(ids, guid, id);
            && Injective(later) && InRange(later)
            && guid in later && later[guid] == id
            && (forall g :: g in ids ==> g in later && later[g] == ids[g])
            && (guid !in ids ==> id >= 1)
  {
    var id := Allocated(ids, guid).value;
    if guid !in ids {
      assert id !in ids.Values;
    }
  }

  /** Where the digest of a new guid is taken, its id is the first positive one above all that are in use. */
  lemma {:induction false} NextAfterLargest(ids: Ids, guid: string)
    requires guid !in ids && StableId(guid) in ids.Values && Allocated(ids, guid).Some?
    ensures var id := Allocated(ids, guid).value;
            && id >= 1 && (forall v :: v in ids.Values ==> v < id) && (id == 1 || id - 1 in ids.Values)
  {
  }

  // --------------------------------------------------------- interleaved calls

  /** The statement that a call executes next. */
  datatype Pc = Select | Insert(candidate: int) | SelectAgain | SelectMax | Returned(id: int)

  datatype Call = Call(guid: string, pc: Pc)

  datatype State = State(ids: Ids, calls: seq<Call>)

  /** Some writer begins a call, executes the next statement of one, or inserts a row of its own. */
  datatype Event = Begin(guid: string) | Advance(call: nat) | Other(guid: string, id: int)

  ghost function NextPc(ids: Ids, c: Call): Pc {
    match c.pc
    case Select => if c.guid in ids then Returned(ids[c.guid]) else Insert(StableId(c.guid))
    case Insert(id) => if c.guid !in ids && id !in ids.Values then Returned(id) else SelectAgain
    case SelectAgain => if c.guid in ids then Returned(ids[c.guid]) else SelectMax
    case SelectMax => Insert(After(MaxId(ids)))
    case Returned(_) => c.pc
  }

  function IdsAfter(ids: Ids, c: Call): Ids {
    if c.pc.Insert? then InsertOrIgnore(ids, c.guid, c.pc.candidate) else ids
  }

  ghost function Step(s: State, e: Event): State {
    match e
    case Begin(guid) => s.(calls := s.calls + [Call(guid, Select)])
    case Advance(k) =>
      if k < |s.calls| then
        var c := s.calls[k];
        State(IdsAfter(s.ids, c), s.calls[k := c.(pc := NextPc(s.ids, c))])
      else s
    case Other(guid, id) => s.(ids := InsertOrIgnore(s.ids, guid, id))
  }

  ghost function Run(s: State, events: seq<Event>): State {
    if events == [] then s else Step(Run(s, events[..|events| - 1]), events[|events| - 1])
  }

  /** What a call returned is the id of its guid in the table. */
  ghost predicate Inv(s: State) {
    && Injective(s.ids)
    && forall k :: 0 <= k < |s.calls| && s.calls[k].pc.Returned? ==>
         s.calls[k].guid in s.ids && s.ids[s.calls[k].guid] == s.calls[k].pc.id
  }

  ghost predicate Grows(ids: Ids, later: Ids) {
    forall g :: g in ids ==> g in later && later[g] == ids[g]
  }

  lemma {:induction false} InsertGrows(ids: Ids, guid: string, id: int)
    ensures Grows(ids, InsertOrIgnore(ids, guid, id))
    ensures Injective(ids) ==> Injective(InsertOrIgnore(ids, guid, id))
  {
    if guid !in ids && id !in ids.Values {
      forall g | g in ids ensures ids[g] != id {
        assert ids[g] in ids.Values;
      }
    }
  }

  lemma {:induction false} StepKeeps(s: State, e: Event)
    requires Inv(s)
    ensures Inv(Step(s, e)) && Grows(s.ids, Step(s, e).ids)
  {
    match e
    case Begin(_) =>
    case Advance(k) =>
      if k < |s.calls| && s.calls[k].pc.Insert? {
        InsertGrows(s.ids, s.calls[k].guid, s.calls[k].pc.candidate);
      }
    case Other(guid, id) => InsertGrows(s.ids, guid, id);
  }

  /**
   * Over every interleaving: ids never change, one guid never gets two ids, and two guids
   * never share one.
   */
  lemma {:induction false} OneIdPerGuid(s: State, events: seq<Event>)
    requires Inv(s)
    ensures var later := Run(s, events);
            && Inv(later) && Grows(s.ids, later.ids)
            && forall c, d :: c in later.calls && d in later.calls && c.pc.Returned? && d.pc.Returned? ==>
                 (c.guid == d.guid <==> c.pc.id == d.pc.id)
  {
    if events != [] {
      OneIdPerGuid(s, events[..|events| - 1]);
      StepKeeps(Run(s, events[..|events| - 1]), events[|events| - 1]);
    }
  }

  // ------------------------------------------------------------ a call alone

  /** A call that executes n statements while nobody else writes. */
  ghost function Alone(ids: Ids, c: Call, n: nat): (Ids, Call) {
    if n == 0 then (ids, c)
    else
      var (before, call) := Alone(ids, c, n - 1);
      (IdsAfter(before, call), call.(pc := NextPc(before, call)))
  }

  /** How many of the first n statements were inserts. */
  ghost function Inserts(ids: Ids, c: Call, n: nat): nat {
    if n == 0 then 0 else Inserts(ids, c, n - 1) + if Alone(ids, c, n - 1).1.pc.Insert? then 1 else 0
  }

  /** Running alone, a call that can return does so within five statements and two inserts, with the id announced. */
  lemma {:induction false} AloneReturns(ids: Ids, guid: string)
    requires InRange(ids) && Allocated(ids, guid).Some?
    ensures var (later, call) := Alone(ids, Call(guid, Select), 5);
            && call.pc == Returned(Allocated(ids, guid).value)
            && later == InsertOrIgnore(ids, guid, Allocated(ids, guid).value)
            && Inserts(ids, Call(guid, Select), 5) <= 2
  {
    var c := Call(guid, Select);
    var one := Alone(ids, c, 1);
    var two := Alone(ids, c, 2);
    var three := Alone(ids, c, 3);
    var four := Alone(ids, c, 4);
    assert Alone(ids, c, 0) == (ids, c) && Inserts(ids, c, 0) == 0;
    if guid in ids {
      assert one == two == three == four == (ids, Call(guid, Returned(ids[guid])));
    } else {
      assert one == (ids, Call(guid, Insert(StableId(guid)))) && Inserts(ids, c, 1) == 0;
      assert Inserts(ids, c, 2) == 1;
      if StableId(guid) in ids.Values {
        assert two == (ids, Call(guid, SelectAgain)) && three == (ids, Call(guid, SelectMax));
        assert four == (ids, Call(guid, Insert(After(MaxId(ids)))));
        assert After(MaxId(ids)) !in ids.Values;
        assert Inserts(ids, c, 4) == 1;
      } else {
        assert two == three == four;
        assert Inserts(ids, c, 4) == 1;
      }
    }
  }

  /**
   * Otherwise it never returns: the guid has no id, its digest is taken, and the largest id
   * is the largest 64-bit integer, so every further candidate is that one.
   */
  lemma {:induction false} AloneLoops(ids: Ids, guid: string, n: nat)
    requires InRange(ids) && Allocated(ids, guid).None?
    ensures var (later, call) := Alone(ids, Call(guid, Select), n);
            && later == ids && call.guid == guid && !call.pc.Returned?
            && (call.pc.Insert? ==> call.pc.candidate in ids.Values)
  {
    if n > 0 {
      AloneLoops(ids, guid, n - 1);
      assert MaxId(ids) == I64_MAX;
    }
  }

  /** There are such tables for every guid: its digest is taken, and so is the largest id. */
  lemma {:induction false} AllocationCanFail(guid: string)
    ensures var ids: Ids := if StableId(guid) == I64_MAX then map[guid + "x" := I64_MAX]
                            else map[guid + "x" := StableId(guid), guid + "y" := I64_MAX];
            Injective(ids) && InRange(ids) && guid !in ids && Allocated(ids, guid) == None
  {
    var ids: Ids := if StableId(guid) == I64_MAX then map[guid + "x" := I64_MAX]
                    else map[guid + "x" := StableId(guid), guid + "y" := I64_MAX];
    assert (guid + "x")[|guid|] == 'x' && (guid + "y")[|guid|] == 'y';
    assert |guid + "x"| == |guid + "y"| == |guid| + 1;
    assert ids[guid + "x"] == StableId(guid);
    assert I64_MAX == ids[if StableId(guid) == I64_MAX then guid + "x" else guid + "y"];
    assert I64_MAX in ids.Values && StableId(guid) in ids.Values;
  }
}
