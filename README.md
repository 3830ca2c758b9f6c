# Email dispatch-and-status engine, modelled in Dafny

This project models the backend core of an email notification service
(Java, package `com.example.emailnotification`) and proves properties of it.

- **Dispatch engine** (`EmailServiceImpl`, `dispatch.dfy`). `sendEmail` saves a QUEUED
  record, which assigns its id. It then calls the mail sender and saves the outcome:
  SENT with sentAt, or FAILED with the exception's message. `retryEmail` reloads a record,
  bumps retryCount, clears the old error, sends again and saves once. `getEmailById` and
  `getAllEmails` read the store.
- **Webhook reconciler** (`WebhookServiceImpl.processSendGridEvents`, `webhook.dfy`). It handles
  provider events in list order. Each event looks up a record by recipient and overwrites the
  record's status with `EmailStatus.valueOf(event.toUpperCase())`. An unknown name is skipped.
- **Statistics aggregator** (`ReportServiceImpl.getStatistics`, `report.dfy`). It counts
  records by status and computes a success rate, which is 0 for an empty store.
- **Email entity** (`Email`, `entity.dfy`). This holds the record's columns and the
  `@PrePersist` defaults for createdAt and status.
- **Template store** (`TemplateServiceImpl`, `templates.dfy`). It offers create, get, list,
  update and delete by id, with a not-found error.

Entities whose setters the services call (`Email`, `Template`) are classes. Each has a
`Row()` snapshot: the value one table row holds. The repositories are classes over a map
from id to row, plus a log `writes` of every row `save` wrote. That log is what "exactly two
saves" and "exactly one save" are stated against. The mail sender is an outcome parameter
(`Delivered` or `Threw(message)`), and every call to it is appended to
`EmailService.outbox`. Clock readings are `Timestamp` parameters. Generated UUIDs are a
counter (`nextId`), so an id is never reused. As a modelling choice, an entity read from a
repository is a fresh object; the services save every entity they change, so the stored rows
come out the same whether or not the persistence context still manages it.
`retryCount` is a Java `int`, so its increment wraps at 2^31-1 as Java's does
(`Entity.Increment`). The success rate is an exact `real` where the source uses a `double`.
The EmailStatus enum's declaration is not part of this model. It is taken to have
QUEUED, SENT and FAILED plus any further constants, named by an abstract set `extras`.

Module `Scenario` composes the parts. It sends to a@x.com with a sender that succeeds,
then receives a "failed" event for that address. The stored record ends FAILED, with no error
message and its sentAt kept.

## Behaviour of note

- **Lookup by recipient.** `findByRecipientEmail` returns an `Optional`
  (EmailNotification/src/main/java/com/example/emailnotification/repository/EmailRepository.java:12). So when two records share a recipient, Spring Data throws
  IncorrectResultSizeDataAccessException instead of returning one of them.
- **Exceptions that end a webhook batch.** The loop catches only `IllegalArgumentException`
  (EmailNotification/src/main/java/com/example/emailnotification/service/impl/WebhookServiceImpl.java:36), which is what `valueOf` throws for an unknown name. The duplicate-recipient
  error above and the `NullPointerException` that `toUpperCase` throws on a null "event"
  entry (line 33) are not caught. Either one ends the batch, and the saves already made stay.
  The model records this as `BatchOutcome.Aborted` rather than assuming unique recipients.

## Model

| member | source | states |
|---|---|---|
| `Status.ToUpper` | EmailNotification/src/main/java/com/example/emailnotification/service/impl/WebhookServiceImpl.java:33 | upper-casing keeps the length, maps each letter and leaves no lower-case letter |
| `Status.ToUpperIdempotent` | EmailNotification/src/main/java/com/example/emailnotification/service/impl/WebhookServiceImpl.java:33 | upper-casing twice is upper-casing once |
| `Status.Parse` | EmailNotification/src/main/java/com/example/emailnotification/service/impl/WebhookServiceImpl.java:33 | a parsed status is an enum constant whose name is the upper-cased text; no parse means no constant has that name |
| `Status.ParseExact` | EmailNotification/src/main/java/com/example/emailnotification/service/impl/WebhookServiceImpl.java:33 | the parse yields status s iff s is an enum constant and the upper-cased text is its name |
| `Status.ParseIgnoresCase` | EmailNotification/src/main/java/com/example/emailnotification/service/impl/WebhookServiceImpl.java:33 | a text and its upper-cased form parse to the same result |
| `Status.ParseName` | EmailNotification/src/main/java/com/example/emailnotification/service/impl/WebhookServiceImpl.java:33 | every upper-case constant name parses back to that constant |
| `Status.ParseSentExamples` | EmailNotification/src/main/java/com/example/emailnotification/service/impl/WebhookServiceImpl.java:33 | "sent", "Sent" and "SENT" all parse to SENT |
| `Status.ParseUnknownExample` | EmailNotification/src/main/java/com/example/emailnotification/service/impl/WebhookServiceImpl.java:33-37 | "bounce" is rejected unless the enum has a BOUNCE constant |
| `Entity.Increment` | EmailNotification/src/main/java/com/example/emailnotification/service/impl/EmailServiceImpl.java:71 | Java's `retryCount + 1`: the successor modulo 2^32, which grows unless at Integer.MAX_VALUE |
| `Entity.WithDefaults` | backend/src/main/java/com/example/emailnotification/entity/Email.java:47-51 | after prePersist, createdAt and status are set; existing values are kept, null ones become now and QUEUED; no other field changes |
| `Entity.WithDefaultsIdempotent` | backend/src/main/java/com/example/emailnotification/entity/Email.java:47-51 | applying prePersist twice gives the same record as once |
| `Entity.Email.PrePersist` | backend/src/main/java/com/example/emailnotification/entity/Email.java:47-51 | the in-place callback leaves the entity equal to WithDefaults of its old state |
| `Entity.Email.constructor` | backend/src/main/java/com/example/emailnotification/entity/Email.java:15-45 | a built or loaded entity holds exactly the given column values |
| `EmailStore.RecipientLookup` | EmailNotification/src/main/java/com/example/emailnotification/repository/EmailRepository.java:12 | findByRecipientEmail is empty iff nothing matches (and for null), gives the sole match, or fails when two ids match |
| `EmailStore.EmailRepository.Save` | EmailNotification/src/test/java/com/example/emailnotification/repository/EmailRepositoryTest.java:73-82 | a new entity gets a fresh id and its prePersist defaults; an existing one is merged unchanged; the row is stored under the id and logged as one write |
| `EmailStore.EmailRepository.FindById` | EmailNotification/src/test/java/com/example/emailnotification/repository/EmailRepositoryTest.java:73-82 | null iff the id is absent; otherwise a fresh entity equal to the stored row |
| `EmailStore.EmailRepository.FindByRecipientEmail` | EmailNotification/src/test/java/com/example/emailnotification/repository/EmailRepositoryTest.java:52-56 | the lookup result above, plus a fresh entity equal to the row when the match is unique |
| `EmailStore.EmailRepository.FindAll` | EmailNotification/src/main/java/com/example/emailnotification/service/impl/ReportServiceImpl.java:21 | every stored row exactly once, in id order: as many rows as stored ids, and no id twice |
| `Dispatch.EmailService.SendEmail` | EmailNotification/src/main/java/com/example/emailnotification/service/impl/EmailServiceImpl.java:26-66 | two writes: the QUEUED record (retryCount 0, the request's recipient, subject and body) under a fresh id, then the outcome. One sender call carries the saved fields. Success gives SENT, sentAt and "Email sent successfully!". A throw gives FAILED, the exception's message and "Email failed: " + message. The returned id is the one the first save assigned |
| `Dispatch.EmailService.RetryEmail` | EmailNotification/src/main/java/com/example/emailnotification/service/impl/EmailServiceImpl.java:69-94 | a missing id throws NoSuchElement with no send and no save. Otherwise: one sender call and one write. retryCount goes up by one (Java int), with no status precondition. Content and createdAt stay as they were. Success gives SENT, a new sentAt and no error. Failure gives FAILED with only the new message, and sentAt is kept. The returned id is the argument |
| `Dispatch.EmailService.GetEmailById` | EmailNotification/src/main/java/com/example/emailnotification/service/impl/EmailServiceImpl.java:97-99 | the stored record with that id, or NoSuchElement when it is absent |
| `Dispatch.EmailService.GetAllEmails` | EmailNotification/src/main/java/com/example/emailnotification/service/impl/EmailServiceImpl.java:102-104 | every stored record exactly once: each element is a stored record, every stored record appears, the length is the number of records and no id repeats |
| `Dispatch.Dispatched` | EmailNotification/src/main/java/com/example/emailnotification/service/impl/EmailServiceImpl.java:48-55 | a sender call leaves id, content, createdAt and retryCount alone; success sets SENT and sentAt and keeps the error; a throw sets FAILED and the exception's message and keeps sentAt |
| `Dispatch.Retried` | EmailNotification/src/main/java/com/example/emailnotification/service/impl/EmailServiceImpl.java:71-85 | a retry keeps id, content and createdAt, adds one to retryCount (Java int); success gives SENT, the new sentAt and no error; failure gives FAILED, the old sentAt and only the new message |
| `Dispatch.SendResponse` | EmailNotification/src/main/java/com/example/emailnotification/service/impl/EmailServiceImpl.java:59-65 | the response carries the record's id and status name; the message is "Email sent successfully!" exactly when the status is SENT, otherwise "Email failed: " followed by the error text ("null" when absent) |
| `Dispatch.RetryResponse` | EmailNotification/src/main/java/com/example/emailnotification/service/impl/EmailServiceImpl.java:89-93 | the response carries the requested id and the status name; the message is "Retry succeeded!" exactly when the status is SENT, otherwise "Retry failed: " followed by the error text |
| `Dispatch.RetryForgetsOldError` | EmailNotification/src/main/java/com/example/emailnotification/service/impl/EmailServiceImpl.java:71-85 | a retry's result does not depend on the previous error; failure leaves only the new message, success leaves none |
| `Dispatch.RetryIdempotentButCounted` | EmailNotification/src/main/java/com/example/emailnotification/service/impl/EmailServiceImpl.java:69-94 | retrying twice against the same outcome equals retrying once except for one more retryCount increment |
| `Dispatch.RetryKeepsCountNonNegative` | EmailNotification/src/main/java/com/example/emailnotification/service/impl/EmailServiceImpl.java:71 | from a count in [0, Integer.MAX_VALUE) a retry gives exactly one more, which is positive |
| `Webhook.EffectOf` | EmailNotification/src/main/java/com/example/emailnotification/service/impl/WebhookServiceImpl.java:25-38 | an event writes exactly when its recipient matches one record, its type is non-null and parses; the write goes to that record and carries the parsed status with no other field changed; it is skipped exactly when nothing matches or the name is unknown; otherwise it aborts |
| `Webhook.Reconcile` | EmailNotification/src/main/java/com/example/emailnotification/service/impl/WebhookServiceImpl.java:24-39 | a batch keeps the table's ids, saves at most once per event, and a batch that saves nothing changes nothing |
| `Webhook.ReconcileOnlyChangesStatus` | EmailNotification/src/main/java/com/example/emailnotification/service/impl/WebhookServiceImpl.java:32-34 | a batch keeps the same ids and changes no field but status (errorMessage, sentAt, retryCount and content are untouched) |
| `Webhook.ReconcileSaveCount` | EmailNotification/src/main/java/com/example/emailnotification/service/impl/WebhookServiceImpl.java:24-35 | a batch that runs to the end saves once per event that matches one record and parses, and not otherwise |
| `Webhook.ReconcileLastWriteWins` | EmailNotification/src/main/java/com/example/emailnotification/service/impl/WebhookServiceImpl.java:24-39 | after a full batch a record's status is that of the last matching, parsing event for it, else unchanged |
| `Webhook.ReconcileConcat` | EmailNotification/src/main/java/com/example/emailnotification/service/impl/WebhookServiceImpl.java:24-39 | events are applied one at a time in list order: a batch a + b is b applied after a, unless a aborted |
| `Webhook.WebhookService.ProcessEvent` | EmailNotification/src/main/java/com/example/emailnotification/service/impl/WebhookServiceImpl.java:25-38 | one iteration: an unmatched recipient or unknown name changes and saves nothing; a valid event sets the status and saves once; a duplicate recipient or null event type aborts without a write |
| `Webhook.WebhookService.ProcessSendGridEvents` | EmailNotification/src/main/java/com/example/emailnotification/service/impl/WebhookServiceImpl.java:23-40 | the store, the writes and the batch outcome are those of Reconcile over the events, and no record is added |
| `Report.CountStatus` | EmailNotification/src/main/java/com/example/emailnotification/service/impl/ReportServiceImpl.java:23-25 | a status count never exceeds the number of records |
| `Report.CountIsMultiplicity` | EmailNotification/src/main/java/com/example/emailnotification/service/impl/ReportServiceImpl.java:23-25 | each count is the number of records carrying exactly that status |
| `Report.BucketsWithinTotal` | EmailNotification/src/main/java/com/example/emailnotification/service/impl/ReportServiceImpl.java:22-25 | sent + failed + queued never exceeds total |
| `Report.BucketsCoverTotal` | EmailNotification/src/main/java/com/example/emailnotification/service/impl/ReportServiceImpl.java:22-25 | the three buckets add up to total iff no record has a null or further status |
| `Report.GetStatistics` | EmailNotification/src/main/java/com/example/emailnotification/service/impl/ReportServiceImpl.java:20-35 | total is the record count, each bucket counts its status, the buckets never exceed total, and the rate is SuccessRate of sent over total |
| `Report.StatisticsOfStore` | EmailNotification/src/main/java/com/example/emailnotification/service/impl/ReportServiceImpl.java:21-25 | over the store's findAll list, totalEmails is the number of stored records and the three buckets stay within it |
| `Report.SuccessRate` | EmailNotification/src/main/java/com/example/emailnotification/service/impl/ReportServiceImpl.java:26 | the rate lies in [0, 100]; it is 0 for no records and 100 when all are sent; otherwise rate times total equals sent times 100 |
| `Report.StatisticsExamples` | EmailNotification/src/test/java/com/example/emailnotification/service/ReportServiceImplTest.java:33-59 | {SENT x3, FAILED, QUEUED} gives 5/3/1/1 and 60.0; {SENT, SENT} gives 100.0; no records give all zeros |
| `Templates.Template.constructor` | backend/src/main/java/com/example/emailnotification/service/impl/TemplateServiceImpl.java:22-26 | a built or loaded template holds exactly the given values |
| `Templates.TemplateRepository.Save` | backend/src/main/java/com/example/emailnotification/service/impl/TemplateServiceImpl.java:27 | a new template gets a fresh id; an existing one is merged; the row is stored under the id and logged as one write |
| `Templates.TemplateRepository.DeleteById` | backend/src/main/java/com/example/emailnotification/service/impl/TemplateServiceImpl.java:55 | the id is removed and the call is logged |
| `Templates.TemplateService.CreateTemplate` | backend/src/main/java/com/example/emailnotification/service/impl/TemplateServiceImpl.java:21-28 | one write of a new template with the request's name, subject and body, under a fresh id |
| `Templates.TemplateService.GetTemplateById` | backend/src/main/java/com/example/emailnotification/service/impl/TemplateServiceImpl.java:31-34 | the stored template iff present, otherwise EntityNotFound for that id |
| `Templates.TemplateService.GetAllTemplates` | backend/src/main/java/com/example/emailnotification/service/impl/TemplateServiceImpl.java:37-39 | exactly the stored templates |
| `Templates.TemplateService.UpdateTemplate` | backend/src/main/java/com/example/emailnotification/service/impl/TemplateServiceImpl.java:42-48 | name, subject and body replaced and id kept, with one write; a missing id throws and nothing is written |
| `Templates.TemplateService.DeleteTemplate` | backend/src/main/java/com/example/emailnotification/service/impl/TemplateServiceImpl.java:51-56 | an existing id is removed via deleteById; a missing id throws and deleteById is never called |
| `Scenario.SendThenProviderFailure` | EmailNotification/src/main/java/com/example/emailnotification/service/impl/WebhookServiceImpl.java:23-40 | a successful send followed by a "failed" event for the same address leaves the record FAILED, with no error message and sentAt kept |

## Left out

- HTTP controllers and request validation (`@NotBlank`, `@Email`). They only map requests
  to the services. Email address syntax is not modelled.
- The RabbitMQ publish (`QueueServiceImpl`). It is a fire-and-forget side channel whose
  failures are swallowed.
- The SendGrid client. It is a foreign network call, replaced by the sender outcome parameter.
- Persistence failures. A store operation that fails propagates as a fatal error; the
  repositories here never fail.
- Wall-clock time. It is a `Timestamp` parameter. The time `save` would give @PrePersist on
  an insert is a parameter too, and the core passes it only where the record already has
  createdAt and status.
- `EmailStore.RecipientLookup`: recipients are compared by exact string equality. A database
  compares by the column's collation, which for MySQL's default ignores case, so there
  "A@x.com" and "a@x.com" could be one match.
- `EmailStore.EmailRepository.FindAll`: rows come back in id (counter) order. Java's `findAll`
  promises no order; statistics and getAllEmails do not depend on it.
- `Status.UpperChar`: only ASCII letters are upper-cased. Java's `toUpperCase` also maps
  other Unicode letters and depends on the default locale.
- `Webhook.EffectOf`: every event value is taken to be a string or absent. A non-string
  value would throw `ClassCastException` at the cast, before the try block, and end the batch.
- `Dispatch.RetryKeepsCountNonNegative`: retryCount stays non-negative only below
  Integer.MAX_VALUE. At that value Java's `int` addition wraps to -2^31, and the model
  (`Entity.Increment`) does the same.
- `Report.GetStatistics`: the rate is exact, with no IEEE-754 rounding. The counts are Java
  `long` and are taken not to overflow.
- `Templates.TemplateService.GetAllTemplates`: it returns a set, so the list order
  `findAll` would give is not modelled.
- The template name's unique constraint. This is a database constraint that the service
  does not check.
- `DataSeeder`, `EmailActivityLog`, the DTOs and the React frontends. They contain no
  engine logic.
- Concurrent calls. Each operation here runs alone to completion.
