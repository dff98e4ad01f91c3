# SMS messaging service: message lifecycle, delivery worker and input rules

This project is a Dafny model of the core of a small SMS service. The service
accepts a send request, stores it as a PENDING message and later resolves it
in a delivery worker that simulates a carrier gateway. The model covers:

- **`MessageModel`** (`message.dfy`). The `Message` entity is a class whose
  fields its constructor and its two mark methods assign in place. The
  three-value `MessageStatus` enum is a datatype. The pure functions
  `Created`, `Delivered` and `FailedWith` state what each operation does to
  the entity's field values (`Snapshot()`).
- **`Repository`** (`repository.dfy`). The message table is the sequence of
  persisted entities, in persist order. Each entity gets its id from a
  counter, so ids increase along the table. The custom finders are
  field-equality queries (`List`, `Count`) over the table's rows.
- **`Consumer`** (`consumer.dfy`). `processMessage` is a method over the
  repository, proved against the pure function `Process`. Its random draws
  and its clock read are parameters. The method has no status guard, and
  the lemmas show what follows from that.
- **`Service`** (`service.dfy`). This covers `sendMessage` and the four read
  paths. `Responses` (`response.dfy`) covers the `SmsResponse` DTO and its
  `fromEntity` projection.
- **`Requests`** (`request.dfy`) holds the `SmsRequest` bean. Its Bean
  Validation constraints become the explicit function `Validate`.
  **`PhoneValidation`** (`phone.dfy`) runs the phone-number pattern through
  a small regex matcher and proves which strings it accepts.
  **`Exceptions`** (`exceptions.dfy`) models the global exception handler.
- **`Text`** (`text.dfy`) holds the Java string semantics used above: `isBlank`
  whitespace, `@NotBlank`'s `trim()`, and `length()` in UTF-16 units.

Where the code and the system's stated design disagree, the model follows the
code:

- The design says the worker skips a message that is no longer PENDING, using
  a compare-and-swap update, so that a redelivered job is a no-op. The code
  has no such guard. A second job re-resolves the message:
  `Consumer.RedeliveryReResolves`.
- The design says a failure reason is present exactly when the status is
  FAILED. `markAsDelivered` does not clear the reason, so a FAILED message
  that is later delivered keeps its stale reason:
  `MessageModel.ResolvedTwiceBreaksReasonConsistency` and
  `Consumer.RedeliveryLeavesStaleReason`. The agreement holds only for a
  message resolved once from its freshly created state.
- The design says accepting a message enqueues a job. `sendMessage` only
  persists; enqueueing is still a TODO.
- The design calls the by-participant query a union. The code concatenates
  the by-source and by-destination lists, so a message a number sends to
  itself appears twice: `Service.SelfAddressedListedTwice`.
- The design says `updatedAt` strictly increases on each transition. The
  code just stores the clock read, so the model only proves `createdAt <=
  updatedAt` for a clock that never goes backwards.

## Model

| member | source | states |
|---|---|---|
| MessageModel.Created | src/main/java/com/sms/model/Message.java:85-92 | a new message is PENDING, has no id and no error message, holds the given numbers and content; with a non-decreasing clock createdAt <= updatedAt |
| MessageModel.Message.constructor | src/main/java/com/sms/model/Message.java:85-92 | the constructed entity's fields are `Created(...)` of the arguments and the two clock reads |
| MessageModel.Message.MarkAsDelivered | src/main/java/com/sms/model/Message.java:97-100 | the entity's new field values are `Delivered(old values, now)`, from any status |
| MessageModel.Message.MarkAsFailed | src/main/java/com/sms/model/Message.java:107-111 | the entity's new field values are `FailedWith(old values, reason, now)`, from any status |
| MessageModel.Delivered | src/main/java/com/sms/model/Message.java:97-100 | markAsDelivered sets status DELIVERED and updatedAt to the clock read, leaves id, numbers, content, createdAt and errorMessage unchanged, and so leaves the message with a reason exactly when it already had one |
| MessageModel.FailedWith | src/main/java/com/sms/model/Message.java:107-111 | markAsFailed sets status FAILED, errorMessage to the reason and updatedAt to the clock read, leaves id, numbers, content and createdAt unchanged, and always leaves a reason that matches the FAILED status |
| MessageModel.ResolvedOnceKeepsReasonConsistent | src/main/java/com/sms/model/Message.java:85-111 | a fresh message, and a fresh message after one mark call, has an error message exactly when it is FAILED |
| MessageModel.ResolvedTwiceBreaksReasonConsistency | src/main/java/com/sms/model/Message.java:97-111 | the mark methods accept DELIVERED->FAILED and FAILED->DELIVERED, and the latter leaves a DELIVERED message with a failure reason |
| MessageModel.MarksKeepCreatedBeforeUpdated | src/main/java/com/sms/model/Message.java:90-110 | with a clock that never goes backwards, createdAt <= updatedAt survives any mark call |
| Repository.List | src/main/java/com/sms/repository/MessageRepository.java:29-48 | a field-equality `list` query returns exactly the table rows that match, and no more rows than the table has |
| Repository.ListMultiplicity | src/main/java/com/sms/repository/MessageRepository.java:29-48 | a matching row occurs in the query result as often as in the table; a non-matching row does not occur |
| Repository.Count | src/main/java/com/sms/repository/MessageRepository.java:55-57 | a `count` query never exceeds the table size |
| Repository.CountIsListLength | src/main/java/com/sms/repository/MessageRepository.java:46-57 | `count` equals the length of `list` for the same field and value |
| Repository.StatusCountsCoverTable | src/main/java/com/sms/repository/MessageRepository.java:55-57 | the PENDING, DELIVERED and FAILED counts add up to the number of stored messages |
| Repository.IndexOfId | src/main/java/com/sms/messaging/SmsMessageConsumer.java:60 | the lookup position is absent exactly when no row has the id; otherwise it is a row with that id |
| Repository.Lookup | src/main/java/com/sms/service/SmsServiceImpl.java:63 | `findByIdOptional` finds a row exactly when some row has the id, and the row it finds is stored and has that id |
| Repository.LookupFindsUniqueRow | src/main/java/com/sms/model/Message.java:14-16 | with store-assigned increasing ids, looking up any stored row's id finds that very row |
| Repository.MessageRepository.constructor | src/main/java/com/sms/model/Message.java:14-16 | a new repository has an empty table and its id sequence starts at 1 |
| Repository.MessageRepository.Persist | src/main/java/com/sms/service/SmsServiceImpl.java:52 | persisting a new entity assigns it the next id and appends exactly that row; persisting a stored entity changes nothing; ids stay increasing |
| Repository.MessageRepository.FindById | src/main/java/com/sms/messaging/SmsMessageConsumer.java:60-65 | returns null exactly when no stored entity has the id, otherwise the stored entity with that id |
| Repository.MessageRepository.FindBySourceNumber | src/main/java/com/sms/repository/MessageRepository.java:29-31 | returns exactly the stored messages whose sourceNumber is the argument |
| Repository.MessageRepository.FindByDestinationNumber | src/main/java/com/sms/repository/MessageRepository.java:37-39 | returns exactly the stored messages whose destinationNumber is the argument |
| Repository.MessageRepository.FindByStatus | src/main/java/com/sms/repository/MessageRepository.java:46-48 | returns exactly the stored messages with the given status |
| Repository.MessageRepository.CountByStatus | src/main/java/com/sms/repository/MessageRepository.java:55-57 | equals the length of `findByStatus` for the same status |
| Consumer.NextInt | src/main/java/com/sms/messaging/SmsMessageConsumer.java:89 | `nextInt(bound)` lies in [0, bound), and every value in that range is drawn by some draw |
| Consumer.GenerateRandomError | src/main/java/com/sms/messaging/SmsMessageConsumer.java:106-116 | the catalogue index is in bounds and the result is one of the six catalogue strings |
| Consumer.EveryErrorReachable | src/main/java/com/sms/messaging/SmsMessageConsumer.java:106-116 | every one of the six catalogue errors can be drawn |
| Consumer.ProcessingDelay | src/main/java/com/sms/messaging/SmsMessageConsumer.java:87-94 | the simulated delay lies in [100, 499] ms, and every value in that range occurs |
| Consumer.Resolve | src/main/java/com/sms/messaging/SmsMessageConsumer.java:70-78 | a found message keeps its identity fields and gets the clock read as updatedAt; on success it is DELIVERED with its reason unchanged, otherwise FAILED with a catalogue reason |
| Consumer.Process | src/main/java/com/sms/messaging/SmsMessageConsumer.java:48-82 | a job never adds or removes rows |
| Consumer.MissingIdIsNoOp | src/main/java/com/sms/messaging/SmsMessageConsumer.java:52-57 | a payload without messageId leaves the table unchanged |
| Consumer.UnknownIdIsNoOp | src/main/java/com/sms/messaging/SmsMessageConsumer.java:60-65 | a messageId that no stored message has leaves the table unchanged |
| Consumer.ProcessResolvesTarget | src/main/java/com/sms/messaging/SmsMessageConsumer.java:67-81 | from any status, the target ends DELIVERED with its errorMessage unchanged on success, or FAILED with a catalogue reason otherwise; updatedAt is the clock read; its other fields and every other row are unchanged |
| Consumer.FirstResolutionKeepsReasonConsistent | src/main/java/com/sms/messaging/SmsMessageConsumer.java:70-78 | a job for a PENDING message without a reason leaves it with a reason exactly when it FAILED |
| Consumer.RedeliveryReResolves | src/main/java/com/sms/messaging/SmsMessageConsumer.java:60-78 | there is no status check: a second job for a message the first one DELIVERED can turn it FAILED, so processing is not idempotent |
| Consumer.RedeliveryLeavesStaleReason | src/main/java/com/sms/messaging/SmsMessageConsumer.java:70-78 | a FAILED message whose next job succeeds is DELIVERED yet still has its failure reason |
| Consumer.SmsMessageConsumer.constructor | src/main/java/com/sms/messaging/SmsMessageConsumer.java:33-34 | the worker uses the repository it is given |
| Consumer.SmsMessageConsumer.ProcessMessage | src/main/java/com/sms/messaging/SmsMessageConsumer.java:45-82 | the table after the call is `Process` of the table before it, ids stay increasing, and the id sequence does not move |
| Responses.Project | src/main/java/com/sms/dto/SmsResponse.java:50-61 | `fromEntity` on field values: the entity can be rebuilt from the response |
| Responses.ProjectLossless | src/main/java/com/sms/dto/SmsResponse.java:50-61 | `fromEntity` loses nothing: the entity can be rebuilt from its response, and the other way round |
| Responses.ProjectCopiesFields | src/main/java/com/sms/dto/SmsResponse.java:50-61 | the response carries the entity's id, numbers, content, status, errorMessage, createdAt and updatedAt unchanged |
| Responses.ProjectInjective | src/main/java/com/sms/dto/SmsResponse.java:50-61 | different entities never give equal responses |
| Responses.ProjectAll | src/main/java/com/sms/service/SmsServiceImpl.java:76-78 | mapping `fromEntity` over a list keeps its length and order, element by element |
| Responses.ProjectAllAppend | src/main/java/com/sms/service/SmsServiceImpl.java:74-78 | mapping the concatenation equals concatenating the mapped lists |
| Responses.SmsResponse.constructor | src/main/java/com/sms/dto/SmsResponse.java:28-39 | the all-arguments constructor stores each argument in its field |
| Responses.SmsResponse.FromEntity | src/main/java/com/sms/dto/SmsResponse.java:50-61 | returns a new response whose fields are the projection of the entity's current fields |
| Responses.SmsResponse.SetId | src/main/java/com/sms/dto/SmsResponse.java:64-70 | getId then returns the value set; every other field is untouched |
| Responses.SmsResponse.SetSourceNumber | src/main/java/com/sms/dto/SmsResponse.java:72-78 | getSourceNumber then returns the value set; every other field is untouched |
| Responses.SmsResponse.SetDestinationNumber | src/main/java/com/sms/dto/SmsResponse.java:80-86 | getDestinationNumber then returns the value set; every other field is untouched |
| Responses.SmsResponse.SetContent | src/main/java/com/sms/dto/SmsResponse.java:88-94 | getContent then returns the value set; every other field is untouched |
| Responses.SmsResponse.SetStatus | src/main/java/com/sms/dto/SmsResponse.java:96-102 | getStatus then returns the value set; every other field is untouched |
| Responses.SmsResponse.SetErrorMessage | src/main/java/com/sms/dto/SmsResponse.java:104-110 | getErrorMessage then returns the value set; every other field is untouched |
| Responses.SmsResponse.SetCreatedAt | src/main/java/com/sms/dto/SmsResponse.java:112-118 | getCreatedAt then returns the value set; every other field is untouched |
| Responses.SmsResponse.SetUpdatedAt | src/main/java/com/sms/dto/SmsResponse.java:120-126 | getUpdatedAt then returns the value set; every other field is untouched |
| Service.ByParticipant | src/main/java/com/sms/service/SmsServiceImpl.java:70-74 | the rows the by-phone query collects are exactly the stored rows the number sent or received |
| Service.ByParticipantLength | src/main/java/com/sms/service/SmsServiceImpl.java:68-79 | the by-phone result has as many entries as the by-source count plus the by-destination count |
| Service.SelfAddressedListedTwice | src/main/java/com/sms/service/SmsServiceImpl.java:70-74 | a message whose source and destination are both the number appears exactly twice in the by-phone result |
| Service.LookupIff | src/main/java/com/sms/service/SmsServiceImpl.java:62-65 | with unique ids, the lookup yields m exactly when m is the stored row with that id |
| Service.SmsService.constructor | src/main/java/com/sms/service/SmsServiceImpl.java:36-39 | the service uses the repository it is given |
| Service.SmsService.SendMessage | src/main/java/com/sms/service/SmsServiceImpl.java:41-59 | with non-null fields, exactly one PENDING message built from the request is appended with the next id, the id sequence advances by one, other rows are unchanged, and the returned response is its projection and is what getMessageById then returns; a null field changes neither the table nor the id sequence and fails as an unexpected error; nothing is enqueued |
| Service.SmsService.GetMessageById | src/main/java/com/sms/service/SmsServiceImpl.java:61-65 | a response exactly when a stored message has the id; it carries that id and projects a stored message |
| Service.SmsService.GetMessagesBySourceNumber | src/main/java/com/sms/service/SmsServiceImpl.java:81-87 | every result projects a stored message from the number, and every such message's projection is in the result |
| Service.SmsService.GetMessagesByDestinationNumber | src/main/java/com/sms/service/SmsServiceImpl.java:89-95 | every result projects a stored message to the number, and every such message's projection is in the result |
| Service.SmsService.GetMessagesByPhoneNumber | src/main/java/com/sms/service/SmsServiceImpl.java:67-79 | the result is the by-source responses followed by the by-destination responses; each has the number as source or destination, and every stored message involving the number is listed |
| PhoneValidation.IsValid | src/main/java/com/sms/validation/PhoneNumberValidator.java:37-44 | the validator accepts exactly null, blank input, and strings of E.164 shape (optional '+', then 7 to 15 ASCII digits, the first 1-9) |
| PhoneValidation.MatchesFromIff | src/main/java/com/sms/validation/PhoneNumberValidator.java:43 | the backtracking matcher accepts exactly when some repetition count for the current atom lets the rest of the pattern match the rest of the string |
| PhoneValidation.PatternMatchesIffE164Shape | src/main/java/com/sms/validation/PhoneNumberValidator.java:22-29 | `^\+?[1-9]\d{6,14}$` fully matches exactly an optional '+', then 7 to 15 ASCII digits whose first digit is 1-9 |
| PhoneValidation.NullOrBlankIsValid | src/main/java/com/sms/validation/PhoneNumberValidator.java:38-41 | null and blank (whitespace-only) input is reported valid |
| PhoneValidation.ValidIffE164Shape | src/main/java/com/sms/validation/PhoneNumberValidator.java:37-44 | non-blank input is valid exactly when it has that shape |
| PhoneValidation.E164ShapeIsValid | src/main/java/com/sms/validation/PhoneNumberValidator.java:37-44 | every string of that shape is valid |
| PhoneValidation.AcceptedHasSevenToFifteenDigits | src/main/java/com/sms/validation/PhoneNumberValidator.java:22-29 | every accepted non-blank number contains between 7 and 15 digits |
| PhoneValidation.LeadingZeroRejected | src/main/java/com/sms/validation/PhoneNumberValidator.java:22-29 | a first digit '0' (after the optional '+') is rejected |
| PhoneValidation.SeparatorRejected | src/main/java/com/sms/validation/PhoneNumberValidator.java:10-13 | a space, a dash, or a '+' anywhere but first makes non-blank input invalid |
| PhoneValidation.DocumentedValidExamples | src/main/java/com/sms/validation/ValidPhoneNumber.java:21 | "+306912345678", "306912345678" and "+1234567890" are valid |
| PhoneValidation.DocumentedInvalidExamples | src/main/java/com/sms/validation/ValidPhoneNumber.java:22 | "abc", "123" and "+30-691-234-5678" are invalid |
| Text.IsBlank | src/main/java/com/sms/validation/PhoneNumberValidator.java:39 | `isBlank()` holds for the empty string, and an ASCII string it calls blank keeps nothing after `trim()` |
| Text.Trim | src/main/java/com/sms/dto/SmsRequest.java:21-35 | the `trim()` that `@NotBlank` applies leaves nothing exactly when no character lies above U+0020, and otherwise starts and ends with such a character |
| Text.BlankRulesDisagree | src/main/java/com/sms/validation/PhoneNumberValidator.java:38-39 | the validator's `isBlank()` and `@NotBlank`'s `trim()` test differ: U+3000 is blank yet not trimmed away, U+0001 is not blank yet trimmed away |
| Text.Utf16Length | src/main/java/com/sms/dto/SmsRequest.java:36 | `length()` counts each character outside the Basic Multilingual Plane twice, so it lies between the character count and twice that |
| Requests.NotBlank | src/main/java/com/sms/dto/SmsRequest.java:21-35 | `@NotBlank` passes exactly a non-null string with some character above U+0020 |
| Requests.SizeAtMost | src/main/java/com/sms/dto/SmsRequest.java:36 | `@Size(max)` passes null; a passing string has at most max characters, and for text in the Basic Multilingual Plane it passes exactly then |
| Requests.Validate | src/main/java/com/sms/dto/SmsRequest.java:21-37 | each of the four messages is reported exactly when its constraint fails: null/blank source, null/blank destination, null/blank content, content over 160 units (not for null content); nothing else is reported |
| Requests.ValidIffWellFormed | src/main/java/com/sms/dto/SmsRequest.java:21-37 | no violations exactly when all three fields are non-blank and the content has at most 160 units |
| Requests.NullContentIsOnlyMissing | src/main/java/com/sms/dto/SmsRequest.java:35-36 | null content is reported as required, never as too long |
| Requests.BlankAndLongContentGetsBothErrors | src/main/java/com/sms/dto/SmsRequest.java:35-36 | 161 spaces of content get both the required and the size error |
| Requests.PhoneFormatNotChecked | src/main/java/com/sms/dto/SmsRequest.java:17-29 | "abc", which the phone validator rejects, passes as source and destination, because no phone-format constraint is applied |
| Requests.RejectedRequestAnswer | src/main/java/com/sms/exception/GlobalExceptionHandler.java:45-59 | the violations of a request, iterated in any order without repetition, are answered 400 "Validation failed"; every violated constraint's message is listed, every listed error is the message of a violated constraint, and no error is listed twice |
| Requests.SmsRequest.Empty | src/main/java/com/sms/dto/SmsRequest.java:40-41 | the no-argument constructor leaves all three fields null |
| Requests.SmsRequest.constructor | src/main/java/com/sms/dto/SmsRequest.java:44-48 | the getters return the three constructor arguments |
| Requests.SmsRequest.SetSourceNumber | src/main/java/com/sms/dto/SmsRequest.java:51-57 | getSourceNumber then returns the value set; the other fields are untouched |
| Requests.SmsRequest.SetDestinationNumber | src/main/java/com/sms/dto/SmsRequest.java:59-65 | getDestinationNumber then returns the value set; the other fields are untouched |
| Requests.SmsRequest.SetContent | src/main/java/com/sms/dto/SmsRequest.java:67-73 | getContent then returns the value set; the other fields are untouched |
| Exceptions.Messages | src/main/java/com/sms/exception/GlobalExceptionHandler.java:46-49 | one error entry per violation, in order, each that violation's message |
| Exceptions.ToResponse | src/main/java/com/sms/exception/GlobalExceptionHandler.java:23-96 | the body's status equals the HTTP status; 404 exactly for MessageNotFound, 500 exactly for other exceptions, 400 exactly for constraint violations and InvalidMessage; an error list only for violations; the message for each kind |
| Exceptions.LongToString | src/main/java/com/sms/exception/MessageNotFoundException.java:15 | an absent id renders as "null"; a present one as decimal digits, with a leading '-' exactly when negative |
| Exceptions.LongToStringRoundTrip | src/main/java/com/sms/exception/MessageNotFoundException.java:14-15 | the id's decimal (or "null") text in the not-found message reads back as the id |
| Exceptions.NotFoundResponseIdentifiesId | src/main/java/com/sms/exception/GlobalExceptionHandler.java:62-71 | different ids give different not-found responses |
| Exceptions.OtherHidesDetail | src/main/java/com/sms/exception/GlobalExceptionHandler.java:84-95 | an unexpected exception's own message never reaches the response |

## Left out

- The HTTP controller and JAX-RS response building are not modelled. `Requests.RejectedRequestAnswer` pairs `Validate` with the handler the way `@Valid` would.
- `SmsMessageProducer` and `SmsMessageEvent` are not modelled; nothing calls the producer. Only the payload's optional `messageId` is modelled, as the consumer's `Option<int>` input.
- Concurrency and transactions are not modelled: `@Transactional`, `@Blocking`, RabbitMQ acknowledgement and redelivery. `Thread.sleep` and its interrupt handling are left out; the model only computes the delay value.
- `java.util.Random` is not modelled. The outcome `nextDouble() < 0.8` is a boolean input, so the 80% success rate is not modelled. Each `nextInt` draw is an arbitrary natural number reduced into range.
- `LocalDateTime.now()` is not modelled. Each clock read is a `Timestamp` parameter.
- The `ErrorResponse` timestamp, logging and `printStackTrace` are not modelled.
- Persistence mechanics are not modelled. The store is an in-memory table of entities in persist order, with ids from a counter starting at 1. A Panache `list` query without a sort has no order guarantee; the model returns persist order.
- Column lengths (160 for the content, and the default for the numbers) are not modelled. Their enforcement depends on the database engine. Only the NOT NULL columns are modelled (`Service.FitsNotNullColumns`).
- The JPA no-argument `Message()` constructor is not modelled.
- The `SmsService` interface is not modelled; its `getMessageById` return type differs from the implementation, and the implementation is modelled.
- `InvalidMessageException` is never thrown in the code. It appears only as a case of the handler's exception datatype.
- Ids and counts are unbounded integers, so the 64-bit range of `Long` and `long` is not modelled.
- Consumer.SmsMessageConsumer.ProcessMessage: its input is an optional integer id, so a payload whose `messageId` is present but not a number is not modelled. For that payload `getLong` throws and the job fails before any lookup.
- Responses.SmsResponse: the no-argument constructor is not modelled. Setting `sourceNumber`, `destinationNumber`, `content`, `status`, `createdAt` or `updatedAt` to null is not modelled either; those fields are non-null in the model, and only `id` and `errorMessage` may be absent.
- Repository.MessageRepository.FindBySourceNumber: returns the matching entities' field values, not references to managed entities. The same holds for FindByDestinationNumber and FindByStatus.
- Service.SmsService.GetMessageById: returns the responses' field values (`ResponseData`) rather than `SmsResponse` objects. The same holds for the three list queries; only `SendMessage` returns an object.
- Consumer.Process: its own contract only says that a job keeps the number of rows. What a job does is stated by the lemmas next to it.
- The getters of `SmsRequest` and `SmsResponse` are plain field reads. Their meaning is stated through the constructor and setter contracts.
