/**
 * `SmsMessageConsumer.processMessage`: one delivery job.
 *
 * The job's payload is reduced to its optional `messageId`.  The three
 * random draws (`nextInt(400)` for the delay, `nextDouble() < 0.8` for the
 * outcome, `nextInt(6)` for the error) and the clock read inside the mark
 * methods are inputs.  `Process` says what one job does to the table;
 * the method is proved against it and the lemmas state its consequences,
 * including that nothing stops a job from re-resolving a message that is
 * already DELIVERED or FAILED.
 */
module Consumer {
  import opened Wrappers
  import opened MessageModel
  import opened Repository

  /** The six carrier errors `generateRandomError` picks from. */
  const ERRORS: seq<string> := [
    "Destination number not reachable",
    "Network timeout",
    "Invalid destination number",
    "Carrier rejected message",
    "Insufficient balance",
    "Message blocked by carrier"
  ]

  /** `random.nextInt(bound)`, driven by an arbitrary draw: a value in
      `[0, bound)`, every one of which some draw yields. */
  function NextInt(draw: nat, bound: nat): (r: nat)
    requires bound > 0
    ensures r < bound
    ensures draw < bound ==> r == draw
  {
    draw % bound
  }

  /** `generateRandomError()`: the index stays inside the catalogue. */
  function GenerateRandomError(draw: nat): (e: string)
    ensures e in ERRORS
  {
    ERRORS[NextInt(draw, |ERRORS|)]
  }

  /** Every catalogue entry can be drawn. */
  lemma EveryErrorReachable(i: nat)
    requires i < |ERRORS|
    ensures GenerateRandomError(i) == ERRORS[i]
  {
  }

  /** The delay `simulateProcessingDelay` sleeps for, in milliseconds. */
  function ProcessingDelay(draw: nat): (ms: int)
    ensures 100 <= ms <= 499
    ensures draw < 400 ==> ms == 100 + draw
  {
    100 + NextInt(draw, 400)
  }

  /** The outcome applied to a found message: `markAsDelivered` on
      success, otherwise `markAsFailed` with a drawn catalogue error. */
  function Resolve(m: MessageData, success: bool, errorDraw: nat, now: Timestamp): (r: MessageData)
    ensures SameIdentity(m, r) && r.updatedAt == now
    ensures success ==> r.status == DELIVERED && r.errorMessage == m.errorMessage
    ensures !success ==> r.status == FAILED && r.errorMessage.Some? && r.errorMessage.value in ERRORS
  {
    if success then Delivered(m, now) else FailedWith(m, GenerateRandomError(errorDraw), now)
  }

  /** The table after one job. */
  function Process(rows: seq<MessageData>, messageId: Option<int>, success: bool, errorDraw: nat,
                   now: Timestamp): (r: seq<MessageData>)
    ensures |r| == |rows|
  {
    match messageId
    case None => rows
    case Some(id) =>
      match IndexOfId(rows, id)
      case None => rows
      case Some(i) => rows[i := Resolve(rows[i], success, errorDraw, now)]
  }

  /** A job without a message id changes nothing. */
  lemma MissingIdIsNoOp(rows: seq<MessageData>, success: bool, errorDraw: nat, now: Timestamp)
    ensures Process(rows, None, success, errorDraw, now) == rows
  {
  }

  /** A job for an id no row has changes nothing. */
  lemma UnknownIdIsNoOp(rows: seq<MessageData>, id: int, success: bool, errorDraw: nat, now: Timestamp)
    requires forall j :: 0 <= j < |rows| ==> rows[j].id != Some(id)
    ensures Process(rows, Some(id), success, errorDraw, now) == rows
  {
  }

  /** A job for the message in row `i` resolves that row, whatever its
      status was: DELIVERED (the reason left as it was) on success, FAILED
      with a catalogue reason otherwise.  Every other row, and the
      untouchable fields of row `i`, stay as they were. */
  lemma ProcessResolvesTarget(rows: seq<MessageData>, i: nat, success: bool, errorDraw: nat, now: Timestamp)
    requires IdsIncreasing(rows) && i < |rows|
    ensures var r := Process(rows, rows[i].id, success, errorDraw, now);
      && SameIdentity(r[i], rows[i])
      && r[i].updatedAt == now
      && (success ==> r[i].status == DELIVERED && r[i].errorMessage == rows[i].errorMessage)
      && (!success ==> r[i].status == FAILED && r[i].errorMessage.Some? && r[i].errorMessage.value in ERRORS)
      && forall j :: 0 <= j < |rows| && j != i ==> r[j] == rows[j]
  {
    LookupFindsUniqueRow(rows, i);
  }

  /** A job for a PENDING message that has no reason yet leaves it with a
      reason exactly when it FAILED. */
  lemma FirstResolutionKeepsReasonConsistent(rows: seq<MessageData>, i: nat, success: bool,
                                             errorDraw: nat, now: Timestamp)
    requires IdsIncreasing(rows) && i < |rows|
    requires rows[i].status == PENDING && rows[i].errorMessage == None
    ensures ReasonMatchesStatus(Process(rows, rows[i].id, success, errorDraw, now)[i])
  {
    ProcessResolvesTarget(rows, i, success, errorDraw, now);
  }

  /** There is no status guard: a second job for a message that a first
      job DELIVERED turns it FAILED when its draw fails, so processing the
      same job twice is not the same as processing it once. */
  lemma RedeliveryReResolves(rows: seq<MessageData>, i: nat, errorDraw: nat, t1: Timestamp, t2: Timestamp)
    requires IdsIncreasing(rows) && i < |rows|
    ensures var once := Process(rows, rows[i].id, true, errorDraw, t1);
      && once[i].status == DELIVERED
      && Process(once, rows[i].id, false, errorDraw, t2)[i].status == FAILED
      && Process(once, rows[i].id, false, errorDraw, t2) != once
  {
    var once := Process(rows, rows[i].id, true, errorDraw, t1);
    ProcessResolvesTarget(rows, i, true, errorDraw, t1);
    assert IdsIncreasing(once) by {
      assert forall j :: 0 <= j < |once| ==> once[j].id == rows[j].id;
    }
    ProcessResolvesTarget(once, i, false, errorDraw, t2);
  }

  /** A FAILED message whose next job succeeds is DELIVERED but keeps its
      old failure reason. */
  lemma RedeliveryLeavesStaleReason(rows: seq<MessageData>, i: nat, errorDraw: nat, t: Timestamp)
    requires IdsIncreasing(rows) && i < |rows|
    requires rows[i].status == FAILED && rows[i].errorMessage.Some?
    ensures !ReasonMatchesStatus(Process(rows, rows[i].id, true, errorDraw, t)[i])
  {
    ProcessResolvesTarget(rows, i, true, errorDraw, t);
  }

  /** The worker, with its injected repository. */
  class SmsMessageConsumer {
    const messageRepository: MessageRepository

    constructor (messageRepository: MessageRepository)
      ensures this.messageRepository == messageRepository
    {
      this.messageRepository := messageRepository;
    }

    /** `processMessage(json)`: `messageId` is the payload's `messageId`
        (absent or present), `success` the outcome draw, `delayDraw` and
        `errorDraw` the two `nextInt` draws, `now` the clock read. */
    method ProcessMessage(messageId: Option<int>, success: bool, delayDraw: nat, errorDraw: nat, now: Timestamp)
      requires messageRepository.Valid()
      modifies messageRepository, messageRepository.entities
      ensures messageRepository.Valid() && messageRepository.nextId == old(messageRepository.nextId)
      ensures messageRepository.Contents() == Process(old(messageRepository.Contents()), messageId, success, errorDraw, now)
    {
      ghost var before := messageRepository.Contents();
      if messageId.None? {
        return;
      }
      var message := messageRepository.FindById(messageId.value);
      if message == null {
        return;
      }
      ghost var i := IndexOfId(before, messageId.value).value;
      ghost var after := Resolve(before[i], success, errorDraw, now);
      assert Process(before, messageId, success, errorDraw, now) == before[i := after];
      ghost var entities := messageRepository.entities;
      assert forall j :: 0 <= j < |entities| && j != i ==> entities[j] != message by {
        forall j | 0 <= j < |entities| && j != i
          ensures entities[j] != message
        {
          assert entities[j].id != entities[i].id;
        }
      }
      var delay := ProcessingDelay(delayDraw);
      if success {
        message.MarkAsDelivered(now);
      } else {
        var errorMessage := GenerateRandomError(errorDraw);
        message.MarkAsFailed(errorMessage, now);
      }
      messageRepository.OnlyRowChanged(i);
      assert messageRepository.Contents() == before[i := after];
      messageRepository.Persist(message);
    }
  }
}
