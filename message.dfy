/**
 * The SMS message entity (`com.sms.model.Message`) and its status enum.
 *
 * The entity is a class whose public fields are assigned in place by its
 * constructor and by `markAsDelivered` / `markAsFailed`.  `Snapshot()` is
 * the value of all its fields; the pure functions `Created`, `Delivered`
 * and `FailedWith` say what each of the three operations makes of it, and
 * the lemmas below are stated over those functions.
 *
 * Wall-clock reads (`LocalDateTime.now()`) are passed in as `Timestamp`
 * parameters, one parameter per read.
 */
module MessageModel {
  import opened Wrappers

  /** `LocalDateTime`, as an abstract ordered instant. */
  type Timestamp = int

  /** `com.sms.model.MessageStatus`. */
  datatype MessageStatus = PENDING | DELIVERED | FAILED

  /** The value of every field of a `Message` entity at one moment. */
  datatype MessageData = MessageData(
    id: Option<int>,
    sourceNumber: string,
    destinationNumber: string,
    content: string,
    status: MessageStatus,
    errorMessage: Option<string>,
    createdAt: Timestamp,
    updatedAt: Timestamp)

  /** What `new Message(source, destination, content)` builds; `t1` and
      `t2` are the two clock reads, for `createdAt` and `updatedAt`.  No id
      yet (the store assigns it on persist) and no error message. */
  function Created(source: string, destination: string, content: string,
                   t1: Timestamp, t2: Timestamp): (d: MessageData)
    ensures d.status == PENDING && d.errorMessage == None && d.id == None
    ensures d.sourceNumber == source && d.destinationNumber == destination && d.content == content
    ensures t1 <= t2 ==> d.createdAt <= d.updatedAt
  {
    MessageData(None, source, destination, content, PENDING, None, t1, t2)
  }

  /** What `markAsDelivered()` makes of a message: whatever its status was,
      it becomes DELIVERED and `updatedAt` becomes the clock read; the error
      message is left as it was, so the record agrees with "a reason is
      present exactly when FAILED" only if it had no reason before. */
  function Delivered(d: MessageData, now: Timestamp): (r: MessageData)
    ensures r.status == DELIVERED && r.updatedAt == now
    ensures SameIdentity(d, r) && r.errorMessage == d.errorMessage
    ensures ReasonMatchesStatus(r) <==> d.errorMessage.None?
  {
    d.(status := DELIVERED, updatedAt := now)
  }

  /** What `markAsFailed(reason)` makes of a message, whatever its status:
      FAILED with the reason stored, which always agrees with "a reason is
      present exactly when FAILED". */
  function FailedWith(d: MessageData, reason: string, now: Timestamp): (r: MessageData)
    ensures r.status == FAILED && r.errorMessage == Some(reason) && r.updatedAt == now
    ensures SameIdentity(d, r)
    ensures ReasonMatchesStatus(r)
  {
    d.(status := FAILED, errorMessage := Some(reason), updatedAt := now)
  }

  /** The fields `markAsDelivered` and `markAsFailed` never touch. */
  predicate SameIdentity(a: MessageData, b: MessageData)
  {
    a.id == b.id && a.sourceNumber == b.sourceNumber && a.destinationNumber == b.destinationNumber
    && a.content == b.content && a.createdAt == b.createdAt
  }

  /** "A failure reason is present exactly when the status is FAILED." */
  predicate ReasonMatchesStatus(d: MessageData)
  {
    d.errorMessage.Some? <==> d.status == FAILED
  }

  /** Resolving a freshly created message once, either way, yields a
      record whose reason is present exactly when it FAILED. */
  lemma ResolvedOnceKeepsReasonConsistent(source: string, destination: string, content: string,
                                          t1: Timestamp, t2: Timestamp, reason: string, now: Timestamp)
    ensures ReasonMatchesStatus(Created(source, destination, content, t1, t2))
    ensures ReasonMatchesStatus(Delivered(Created(source, destination, content, t1, t2), now))
    ensures ReasonMatchesStatus(FailedWith(Created(source, destination, content, t1, t2), reason, now))
  {
  }

  /** Neither mark operation checks the current status: a DELIVERED message
      can be marked FAILED and a FAILED one DELIVERED.  In the second case
      the old failure reason stays behind, so the reason/status agreement
      does not survive a second resolution. */
  lemma ResolvedTwiceBreaksReasonConsistency(d: MessageData, reason: string, t1: Timestamp, t2: Timestamp)
    requires d.status == DELIVERED
    ensures FailedWith(d, reason, t1).status == FAILED
    ensures Delivered(FailedWith(d, reason, t1), t2).status == DELIVERED
    ensures Delivered(FailedWith(d, reason, t1), t2).errorMessage == Some(reason)
    ensures !ReasonMatchesStatus(Delivered(FailedWith(d, reason, t1), t2))
  {
  }

  /** With a clock that never goes backwards, the update time never falls
      below the creation time, however often a message is re-marked. */
  lemma MarksKeepCreatedBeforeUpdated(d: MessageData, reason: string, now: Timestamp)
    requires d.createdAt <= d.updatedAt <= now
    ensures Delivered(d, now).createdAt <= Delivered(d, now).updatedAt
    ensures FailedWith(d, reason, now).createdAt <= FailedWith(d, reason, now).updatedAt
  {
  }

  /** The entity itself. */
  class Message {
    var id: Option<int>
    var sourceNumber: string
    var destinationNumber: string
    var content: string
    var status: MessageStatus
    var errorMessage: Option<string>
    var createdAt: Timestamp
    var updatedAt: Timestamp

    /** All fields, as one value. */
    function Snapshot(): MessageData
      reads this
    {
      MessageData(id, sourceNumber, destinationNumber, content, status, errorMessage, createdAt, updatedAt)
    }

    /** `new Message(source, destination, content)`; `t1`, `t2` are the two
        clock reads. */
    constructor (source: string, destination: string, content: string, t1: Timestamp, t2: Timestamp)
      ensures Snapshot() == Created(source, destination, content, t1, t2)
    {
      this.id := None;
      this.sourceNumber := source;
      this.destinationNumber := destination;
      this.content := content;
      this.status := PENDING;
      this.errorMessage := None;
      this.createdAt := t1;
      this.updatedAt := t2;
    }

    /** `markAsDelivered()`, with the clock read `now`. */
    method MarkAsDelivered(now: Timestamp)
      modifies this
      ensures Snapshot() == Delivered(old(Snapshot()), now)
    {
      status := DELIVERED;
      updatedAt := now;
    }

    /** `markAsFailed(reason)`, with the clock read `now`. */
    method MarkAsFailed(reason: string, now: Timestamp)
      modifies this
      ensures Snapshot() == FailedWith(old(Snapshot()), reason, now)
    {
      status := FAILED;
      errorMessage := Some(reason);
      updatedAt := now;
    }
  }
}
