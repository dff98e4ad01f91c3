/**
 * `SmsServiceImpl`: sending (create and persist a PENDING message) and the
 * read paths over the repository, which return `fromEntity` projections.
 */
module Service {
  import opened Wrappers
  import opened MessageModel
  import opened Repository
  import opened Responses
  import opened Requests
  import opened Exceptions

  /** The rows `getMessagesByPhoneNumber` collects: the by-source result
      followed by the by-destination result, with no de-duplication. */
  function ByParticipant(rows: seq<MessageData>, phoneNumber: string): (r: seq<MessageData>)
    ensures forall m :: m in r <==> m in rows && (m.sourceNumber == phoneNumber || m.destinationNumber == phoneNumber)
  {
    List(rows, SourceNumberIs(phoneNumber)) + List(rows, DestinationNumberIs(phoneNumber))
  }

  /** There are as many by-phone rows as both queries return together. */
  lemma ByParticipantLength(rows: seq<MessageData>, phoneNumber: string)
    ensures |ByParticipant(rows, phoneNumber)| ==
            Count(rows, SourceNumberIs(phoneNumber)) + Count(rows, DestinationNumberIs(phoneNumber))
  {
    CountIsListLength(rows, SourceNumberIs(phoneNumber));
    CountIsListLength(rows, DestinationNumberIs(phoneNumber));
  }

  /** In a table with unique ids, a row occurs only once. */
  lemma {:induction false} UniqueRowOccursOnce(rows: seq<MessageData>, m: MessageData)
    requires IdsIncreasing(rows) && m in rows
    ensures multiset(rows)[m] == 1
  {
    assert rows == [rows[0]] + rows[1..];
    assert IdsIncreasing(rows[1..]) by {
      assert forall j :: 0 <= j < |rows[1..]| ==> rows[1..][j] == rows[j + 1];
    }
    if m == rows[0] {
      assert m !in rows[1..] by {
        forall j | 0 <= j < |rows[1..]| ensures rows[1..][j] != m {
          assert rows[1..][j] == rows[j + 1];
        }
      }
    } else {
      UniqueRowOccursOnce(rows[1..], m);
    }
  }

  /** Projection keeps multiplicities, since it is injective. */
  lemma {:induction false} ProjectAllMultiplicity(ms: seq<MessageData>, m: MessageData)
    ensures multiset(ProjectAll(ms))[Project(m)] == multiset(ms)[m]
  {
    if ms != [] {
      var x, t := ms[0], ms[1..];
      ProjectAllMultiplicity(t, m);
      assert multiset(ms)[m] == (if x == m then 1 else 0) + multiset(t)[m] by {
        assert ms == [x] + t;
      }
      assert multiset(ProjectAll(ms))[Project(m)]
          == (if Project(x) == Project(m) then 1 else 0) + multiset(ProjectAll(t))[Project(m)];
      if Project(x) == Project(m) {
        ProjectInjective(x, m);
      }
    }
  }

  /** A message the number sent to itself is listed exactly twice by the
      by-phone query. */
  lemma SelfAddressedListedTwice(rows: seq<MessageData>, m: MessageData, phoneNumber: string)
    requires IdsIncreasing(rows) && m in rows
    requires m.sourceNumber == phoneNumber && m.destinationNumber == phoneNumber
    ensures multiset(ProjectAll(ByParticipant(rows, phoneNumber)))[Project(m)] == 2
  {
    UniqueRowOccursOnce(rows, m);
    ListMultiplicity(rows, SourceNumberIs(phoneNumber), m);
    ListMultiplicity(rows, DestinationNumberIs(phoneNumber), m);
    ProjectAllMultiplicity(ByParticipant(rows, phoneNumber), m);
  }

  /** In a table with unique ids, `getMessageById(id)` yields the
      projection of `m` exactly when `m` is the row stored under `id`. */
  lemma LookupIff(rows: seq<MessageData>, id: int, m: MessageData)
    requires IdsIncreasing(rows)
    ensures Lookup(rows, id) == Some(m) <==> m in rows && m.id == Some(id)
  {
    if m in rows && m.id == Some(id) {
      var i :| 0 <= i < |rows| && rows[i] == m;
      LookupFindsUniqueRow(rows, i);
    }
  }

  /** The value the NOT NULL columns `source_number`, `destination_number`
      and `message_content` can hold. */
  predicate FitsNotNullColumns(source: Option<string>, destination: Option<string>, content: Option<string>)
  {
    source.Some? && destination.Some? && content.Some?
  }

  /** The service, with its injected repository. */
  class SmsService {
    const messageRepository: MessageRepository

    constructor (messageRepository: MessageRepository)
      ensures this.messageRepository == messageRepository
    {
      this.messageRepository := messageRepository;
    }

    /** `sendMessage(request)`; `t1`, `t2` are the constructor's clock reads.
        A new PENDING message with the request's fields is persisted and its
        projection returned; nothing is enqueued.  A null field cannot be
        stored in its NOT NULL column: the transaction rolls back and the
        failure surfaces as an unexpected exception. */
    method SendMessage(request: SmsRequest, t1: Timestamp, t2: Timestamp)
      returns (r: Result<SmsResponse, Exception>)
      requires messageRepository.Valid()
      modifies messageRepository
      ensures messageRepository.Valid()
      ensures r.Success? <==>
              FitsNotNullColumns(request.GetSourceNumber(), request.GetDestinationNumber(), request.GetContent())
      ensures r.Failure? ==>
              r.error.Other? && messageRepository.Contents() == old(messageRepository.Contents())
              && messageRepository.nextId == old(messageRepository.nextId)
      ensures r.Success? ==> messageRepository.nextId == old(messageRepository.nextId) + 1
      ensures r.Success? ==>
              var stored := Created(request.GetSourceNumber().value, request.GetDestinationNumber().value,
                                    request.GetContent().value, t1, t2).(id := Some(old(messageRepository.nextId)));
              && messageRepository.Contents() == old(messageRepository.Contents()) + [stored]
              && fresh(r.value) && r.value.View() == Project(stored)
              && GetMessageById(stored.id.value) == Some(r.value.View())
              && r.value.View().status == PENDING
    {
      ghost var before := messageRepository.Contents();
      var source, destination, content := request.GetSourceNumber(), request.GetDestinationNumber(), request.GetContent();
      if !FitsNotNullColumns(source, destination, content) {
        return Failure(Other(None));
      }
      ghost var stored := Created(source.value, destination.value, content.value, t1, t2)
                            .(id := Some(messageRepository.nextId));
      var message := new Message(source.value, destination.value, content.value, t1, t2);
      assert messageRepository.Contents() == before;
      messageRepository.Persist(message);
      assert messageRepository.Contents() == before + [stored];
      assert messageRepository.entities[|before|] == message;
      var response := SmsResponse.FromEntity(message);
      messageRepository.ValidIdsIncreasing();
      LookupFindsUniqueRow(messageRepository.Contents(), |before|);
      return Success(response);
    }

    /** `getMessageById(id)`. */
    function GetMessageById(id: int): (r: Option<ResponseData>)
      reads this, messageRepository, messageRepository.entities
      ensures r.Some? <==> exists j :: 0 <= j < |messageRepository.Contents()| && messageRepository.Contents()[j].id == Some(id)
      ensures r.Some? ==> r.value.id == Some(id) && Unproject(r.value) in messageRepository.Contents()
    {
      match Lookup(messageRepository.Contents(), id)
      case None => None
      case Some(m) => Some(Project(m))
    }

    /** `getMessagesBySourceNumber(sourceNumber)`. */
    function GetMessagesBySourceNumber(sourceNumber: string): (r: seq<ResponseData>)
      reads this, messageRepository, messageRepository.entities
      ensures forall x :: x in r ==> x.sourceNumber == sourceNumber && Unproject(x) in messageRepository.Contents()
      ensures forall m :: m in messageRepository.Contents() && m.sourceNumber == sourceNumber ==> Project(m) in r
    {
      var rows := messageRepository.FindBySourceNumber(sourceNumber);
      assert forall x :: x in ProjectAll(rows) ==> Unproject(x) in rows;
      ProjectAll(rows)
    }

    /** `getMessagesByDestinationNumber(destinationNumber)`. */
    function GetMessagesByDestinationNumber(destinationNumber: string): (r: seq<ResponseData>)
      reads this, messageRepository, messageRepository.entities
      ensures forall x :: x in r ==> x.destinationNumber == destinationNumber && Unproject(x) in messageRepository.Contents()
      ensures forall m :: m in messageRepository.Contents() && m.destinationNumber == destinationNumber ==> Project(m) in r
    {
      var rows := messageRepository.FindByDestinationNumber(destinationNumber);
      assert forall x :: x in ProjectAll(rows) ==> Unproject(x) in rows;
      ProjectAll(rows)
    }

    /** `getMessagesByPhoneNumber(phoneNumber)`: the sent list, extended
        in place by the received list, then projected. */
    method GetMessagesByPhoneNumber(phoneNumber: string) returns (r: seq<ResponseData>)
      ensures r == GetMessagesBySourceNumber(phoneNumber) + GetMessagesByDestinationNumber(phoneNumber)
      ensures r == ProjectAll(ByParticipant(messageRepository.Contents(), phoneNumber))
      ensures forall x :: x in r ==>
                (x.sourceNumber == phoneNumber || x.destinationNumber == phoneNumber)
                && Unproject(x) in messageRepository.Contents()
      ensures forall m ::
                (m in messageRepository.Contents() && (m.sourceNumber == phoneNumber || m.destinationNumber == phoneNumber))
                ==> Project(m) in r
    {
      var sentMessages := messageRepository.FindBySourceNumber(phoneNumber);
      var receivedMessages := messageRepository.FindByDestinationNumber(phoneNumber);
      ProjectAllAppend(sentMessages, receivedMessages);
      sentMessages := sentMessages + receivedMessages;
      r := ProjectAll(sentMessages);
    }
  }
}
