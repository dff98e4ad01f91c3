/**
 * `MessageRepository` over an abstract message table.
 *
 * The table is the sequence of persisted entities in the order they were
 * persisted; each got its id from a counter when first persisted, so ids
 * increase along the sequence.  The custom finders are Panache
 * field-equality queries (`list(field, value)`, `count(field, value)`),
 * modelled by `List` and `Count` over the table's rows.
 */
module Repository {
  import opened Wrappers
  import opened MessageModel

  /** The `(field, value)` pair a Panache `list` / `count` query filters on. */
  datatype FieldQuery =
    | SourceNumberIs(sourceNumber: string)
    | DestinationNumberIs(destinationNumber: string)
    | StatusIs(status: MessageStatus)

  predicate Selects(q: FieldQuery, m: MessageData)
  {
    match q
    case SourceNumberIs(s) => m.sourceNumber == s
    case DestinationNumberIs(d) => m.destinationNumber == d
    case StatusIs(st) => m.status == st
  }

  /** `list(field, value)`: the selected rows, in table order. */
  function List(rows: seq<MessageData>, q: FieldQuery): (r: seq<MessageData>)
    ensures |r| <= |rows|
    ensures forall m :: m in r <==> m in rows && Selects(q, m)
  {
    if rows == [] then []
    else (if Selects(q, rows[0]) then [rows[0]] else []) + List(rows[1..], q)
  }

  /** `count(field, value)`. */
  function Count(rows: seq<MessageData>, q: FieldQuery): (n: nat)
    ensures n <= |rows|
  {
    if rows == [] then 0
    else (if Selects(q, rows[0]) then 1 else 0) + Count(rows[1..], q)
  }

  /** `count` agrees with the length of `list` for the same query. */
  lemma {:induction false} CountIsListLength(rows: seq<MessageData>, q: FieldQuery)
    ensures Count(rows, q) == |List(rows, q)|
  {
    if rows != [] {
      CountIsListLength(rows[1..], q);
    }
  }

  /** A selected row occurs in the result exactly as often as in the table,
      and an unselected one not at all. */
  lemma {:induction false} ListMultiplicity(rows: seq<MessageData>, q: FieldQuery, m: MessageData)
    ensures multiset(List(rows, q))[m] == if Selects(q, m) then multiset(rows)[m] else 0
  {
    if rows != [] {
      var x, t := rows[0], rows[1..];
      ListMultiplicity(t, q, m);
      assert multiset(rows)[m] == (if x == m then 1 else 0) + multiset(t)[m] by {
        assert rows == [x] + t;
      }
    }
  }

  /** Every row has exactly one of the three statuses, so the three status
      counts add up to the size of the table. */
  lemma {:induction false} StatusCountsCoverTable(rows: seq<MessageData>)
    ensures Count(rows, StatusIs(PENDING)) + Count(rows, StatusIs(DELIVERED)) + Count(rows, StatusIs(FAILED)) == |rows|
  {
    if rows != [] {
      StatusCountsCoverTable(rows[1..]);
    }
  }

  /** The position of the row with id `id`, if any (`findById`). */
  function IndexOfId(rows: seq<MessageData>, id: int): (r: Option<nat>)
    ensures r.None? <==> forall j :: 0 <= j < |rows| ==> rows[j].id != Some(id)
    ensures r.Some? ==> r.value < |rows| && rows[r.value].id == Some(id)
  {
    if rows == [] then None
    else if rows[0].id == Some(id) then Some(0)
    else match IndexOfId(rows[1..], id)
      case None => None
      case Some(k) => Some(k + 1)
  }

  /** `findByIdOptional(id)`, on row values. */
  function Lookup(rows: seq<MessageData>, id: int): (r: Option<MessageData>)
    ensures r.Some? <==> exists j :: 0 <= j < |rows| && rows[j].id == Some(id)
    ensures r.Some? ==> r.value in rows && r.value.id == Some(id)
  {
    match IndexOfId(rows, id)
    case None => None
    case Some(i) => Some(rows[i])
  }

  /** Ids strictly increase along the table. */
  ghost predicate IdsIncreasing(rows: seq<MessageData>)
  {
    (forall i :: 0 <= i < |rows| ==> rows[i].id.Some?)
    && forall i, j :: 0 <= i < j < |rows| ==> rows[i].id.value < rows[j].id.value
  }

  /** In a table with increasing ids, `Lookup` finds the one row with
      that id, wherever it is. */
  lemma LookupFindsUniqueRow(rows: seq<MessageData>, i: nat)
    requires IdsIncreasing(rows) && i < |rows|
    ensures Lookup(rows, rows[i].id.value) == Some(rows[i])
  {
    var k := IndexOfId(rows, rows[i].id.value);
    assert k.Some?;
    assert rows[k.value].id == rows[i].id;
  }

  /** The repository and the table it fronts. */
  class MessageRepository {
    /** The persisted entities, in persist order. */
    var entities: seq<Message>
    /** The next id the id sequence hands out. */
    var nextId: int

    ghost predicate Valid()
      reads this, entities
    {
      (forall i :: 0 <= i < |entities| ==> entities[i].id.Some? && entities[i].id.value < nextId)
      && (forall i, j :: 0 <= i < j < |entities| ==> entities[i].id.value < entities[j].id.value)
    }

    /** The rows of the table: each entity's current field values. */
    function Contents(): (rows: seq<MessageData>)
      reads this, entities
      ensures |rows| == |entities|
      ensures forall i :: 0 <= i < |entities| ==> rows[i] == entities[i].Snapshot()
    {
      seq(|entities|, i reads this, entities requires 0 <= i < |entities| => entities[i].Snapshot())
    }

    lemma ValidIdsIncreasing()
      requires Valid()
      ensures IdsIncreasing(Contents())
    {
    }

    /** When only the entity in row `i` changed, and kept its id, the
        table changed in that row alone and its ids still increase. */
    twostate lemma OnlyRowChanged(i: nat)
      requires old(Valid()) && unchanged(this) && i < |entities|
      requires forall j :: 0 <= j < |entities| && j != i ==> unchanged(entities[j])
      requires entities[i].id == old(entities[i].id)
      ensures Valid()
      ensures Contents() == old(Contents())[i := entities[i].Snapshot()]
    {
      assert forall j :: 0 <= j < |entities| ==> entities[j].id == old(entities[j].id);
    }

    /** An empty table whose id sequence starts at 1. */
    constructor ()
      ensures Valid() && Contents() == [] && nextId == 1
    {
      entities := [];
      nextId := 1;
    }

    /** `persist(message)`: a new entity gets the next id and is appended;
        an entity already in the table is left as it is (its changes are
        already part of the table). */
    method Persist(message: Message)
      requires Valid()
      requires message.id.None? || message in entities
      modifies this, message
      ensures Valid()
      ensures old(message.id).None? ==>
                Contents() == old(Contents()) + [old(message.Snapshot()).(id := Some(old(nextId)))]
                && entities == old(entities) + [message] && nextId == old(nextId) + 1
      ensures old(message.id).Some? ==> Contents() == old(Contents()) && nextId == old(nextId)
    {
      if message.id.None? {
        assert message !in entities;
        message.id := Some(nextId);
        entities := entities + [message];
        nextId := nextId + 1;
      }
    }

    /** `findById(id)`: the entity with that id, or null. */
    method FindById(id: int) returns (message: Message?)
      ensures IndexOfId(Contents(), id).None? ==> message == null
      ensures IndexOfId(Contents(), id).Some? ==> message == entities[IndexOfId(Contents(), id).value]
    {
      var i := 0;
      while i < |entities|
        invariant 0 <= i <= |entities|
        invariant forall j :: 0 <= j < i ==> entities[j].id != Some(id)
      {
        if entities[i].id == Some(id) {
          assert IndexOfId(Contents()[i..], id) == Some(0);
          IndexOfIdSkips(Contents(), id, i);
          return entities[i];
        }
        i := i + 1;
      }
      return null;
    }

    /** `findBySourceNumber(sourceNumber)`. */
    function FindBySourceNumber(sourceNumber: string): (r: seq<MessageData>)
      reads this, entities
      ensures forall m :: m in r <==> m in Contents() && m.sourceNumber == sourceNumber
    {
      List(Contents(), SourceNumberIs(sourceNumber))
    }

    /** `findByDestinationNumber(destinationNumber)`. */
    function FindByDestinationNumber(destinationNumber: string): (r: seq<MessageData>)
      reads this, entities
      ensures forall m :: m in r <==> m in Contents() && m.destinationNumber == destinationNumber
    {
      List(Contents(), DestinationNumberIs(destinationNumber))
    }

    /** `findByStatus(status)`. */
    function FindByStatus(status: MessageStatus): (r: seq<MessageData>)
      reads this, entities
      ensures forall m :: m in r <==> m in Contents() && m.status == status
    {
      List(Contents(), StatusIs(status))
    }

    /** `countByStatus(status)`. */
    function CountByStatus(status: MessageStatus): (n: nat)
      reads this, entities
      ensures n == |FindByStatus(status)|
    {
      CountIsListLength(Contents(), StatusIs(status));
      Count(Contents(), StatusIs(status))
    }
  }

  /** If no row before `i` has the id, searching from the start finds what
      searching from `i` finds, shifted by `i`. */
  lemma {:induction false} IndexOfIdSkips(rows: seq<MessageData>, id: int, i: nat)
    requires i <= |rows|
    requires forall j :: 0 <= j < i ==> rows[j].id != Some(id)
    requires IndexOfId(rows[i..], id) == Some(0)
    ensures IndexOfId(rows, id) == Some(i)
  {
    if i > 0 {
      assert rows[1..][i - 1..] == rows[i..];
      IndexOfIdSkips(rows[1..], id, i - 1);
    }
  }
}
