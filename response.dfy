/**
 * `SmsResponse`: the DTO returned to clients.  `ResponseData` is the value
 * of its eight fields; `Project` is what `fromEntity` builds from a message
 * entity, and the class keeps the bean's constructors, getters and setters.
 */
module Responses {
  import opened Wrappers
  import opened MessageModel

  datatype ResponseData = ResponseData(
    id: Option<int>,
    sourceNumber: string,
    destinationNumber: string,
    content: string,
    status: MessageStatus,
    errorMessage: Option<string>,
    createdAt: Timestamp,
    updatedAt: Timestamp)

  /** `SmsResponse.fromEntity`, on the entity's field values. */
  function Project(m: MessageData): (r: ResponseData)
    ensures Unproject(r) == m
  {
    ResponseData(m.id, m.sourceNumber, m.destinationNumber, m.content,
                 m.status, m.errorMessage, m.createdAt, m.updatedAt)
  }

  /** The entity a response was projected from. */
  function Unproject(r: ResponseData): MessageData
  {
    MessageData(r.id, r.sourceNumber, r.destinationNumber, r.content,
                r.status, r.errorMessage, r.createdAt, r.updatedAt)
  }

  /** `fromEntity` drops nothing: the entity can be rebuilt from the
      response, so every field (a failure reason included) reaches the
      client unchanged. */
  lemma ProjectLossless(m: MessageData, r: ResponseData)
    ensures Unproject(Project(m)) == m
    ensures Project(Unproject(r)) == r
  {
  }

  /** Each entity field shows up in the response under the same name. */
  lemma ProjectCopiesFields(m: MessageData)
    ensures Project(m).id == m.id
    ensures Project(m).sourceNumber == m.sourceNumber && Project(m).destinationNumber == m.destinationNumber
    ensures Project(m).content == m.content
    ensures Project(m).status == m.status && Project(m).errorMessage == m.errorMessage
    ensures Project(m).createdAt == m.createdAt && Project(m).updatedAt == m.updatedAt
  {
  }

  /** Two responses are equal only for equal entities. */
  lemma ProjectInjective(a: MessageData, b: MessageData)
    requires Project(a) == Project(b)
    ensures a == b
  {
    ProjectLossless(a, Project(b));
    ProjectLossless(b, Project(a));
  }

  /** `stream().map(SmsResponse::fromEntity).collect(toList())`. */
  function ProjectAll(ms: seq<MessageData>): (rs: seq<ResponseData>)
    ensures |rs| == |ms|
    ensures forall i :: 0 <= i < |ms| ==> rs[i] == Project(ms[i])
  {
    if ms == [] then [] else [Project(ms[0])] + ProjectAll(ms[1..])
  }

  /** Mapping distributes over concatenation (the by-phone query relies on
      it). */
  lemma ProjectAllAppend(a: seq<MessageData>, b: seq<MessageData>)
    ensures ProjectAll(a + b) == ProjectAll(a) + ProjectAll(b)
  {
    var l, r := ProjectAll(a + b), ProjectAll(a) + ProjectAll(b);
    forall i | 0 <= i < |l|
      ensures l[i] == r[i]
    {
      if i < |a| {
        assert (a + b)[i] == a[i];
      } else {
        assert (a + b)[i] == b[i - |a|];
      }
    }
  }

  /** The response bean. */
  class SmsResponse {
    var id: Option<int>
    var sourceNumber: string
    var destinationNumber: string
    var content: string
    var status: MessageStatus
    var errorMessage: Option<string>
    var createdAt: Timestamp
    var updatedAt: Timestamp

    /** All fields, as one value. */
    function View(): ResponseData
      reads this
    {
      ResponseData(id, sourceNumber, destinationNumber, content, status, errorMessage, createdAt, updatedAt)
    }

    /** The all-arguments constructor. */
    constructor (id: Option<int>, sourceNumber: string, destinationNumber: string, content: string,
                 status: MessageStatus, errorMessage: Option<string>, createdAt: Timestamp, updatedAt: Timestamp)
      ensures View() == ResponseData(id, sourceNumber, destinationNumber, content,
                                     status, errorMessage, createdAt, updatedAt)
    {
      this.id, this.sourceNumber, this.destinationNumber, this.content := id, sourceNumber, destinationNumber, content;
      this.status, this.errorMessage, this.createdAt, this.updatedAt := status, errorMessage, createdAt, updatedAt;
    }

    /** `SmsResponse.fromEntity(message)`: a new response holding the
        entity's current field values. */
    static method FromEntity(message: Message) returns (r: SmsResponse)
      ensures fresh(r)
      ensures r.View() == Project(message.Snapshot())
    {
      r := new SmsResponse(message.id, message.sourceNumber, message.destinationNumber, message.content,
                           message.status, message.errorMessage, message.createdAt, message.updatedAt);
    }

    function GetId(): Option<int> reads this { id }
    function GetSourceNumber(): string reads this { sourceNumber }
    function GetDestinationNumber(): string reads this { destinationNumber }
    function GetContent(): string reads this { content }
    function GetStatus(): MessageStatus reads this { status }
    function GetErrorMessage(): Option<string> reads this { errorMessage }
    function GetCreatedAt(): Timestamp reads this { createdAt }
    function GetUpdatedAt(): Timestamp reads this { updatedAt }

    method SetId(v: Option<int>)
      modifies this
      ensures GetId() == v && View() == old(View()).(id := v)
    {
      id := v;
    }

    method SetSourceNumber(v: string)
      modifies this
      ensures GetSourceNumber() == v && View() == old(View()).(sourceNumber := v)
    {
      sourceNumber := v;
    }

    method SetDestinationNumber(v: string)
      modifies this
      ensures GetDestinationNumber() == v && View() == old(View()).(destinationNumber := v)
    {
      destinationNumber := v;
    }

    method SetContent(v: string)
      modifies this
      ensures GetContent() == v && View() == old(View()).(content := v)
    {
      content := v;
    }

    method SetStatus(v: MessageStatus)
      modifies this
      ensures GetStatus() == v && View() == old(View()).(status := v)
    {
      status := v;
    }

    method SetErrorMessage(v: Option<string>)
      modifies this
      ensures GetErrorMessage() == v && View() == old(View()).(errorMessage := v)
    {
      errorMessage := v;
    }

    method SetCreatedAt(v: Timestamp)
      modifies this
      ensures GetCreatedAt() == v && View() == old(View()).(createdAt := v)
    {
      createdAt := v;
    }

    method SetUpdatedAt(v: Timestamp)
      modifies this
      ensures GetUpdatedAt() == v && View() == old(View()).(updatedAt := v)
    {
      updatedAt := v;
    }
  }
}
