/**
 * The dispatch engine (`EmailServiceImpl`): persist a QUEUED record, call the
 * sender, persist the outcome; retry a stored record; look one up by id.
 *
 * The SendGrid sender is outside the model: each call is recorded in `outbox`
 * and its outcome is a parameter of the operation that makes it.
 */
module Dispatch {
  import opened Wrappers
  import opened Status
  import opened Entity
  import opened Errors
  import opened EmailStore

  /** `SendEmailRequest`: recipient, subject and body, checked non-blank by the HTTP layer. */
  datatype SendEmailRequest = SendEmailRequest(recipient: string, subject: string, body: string)

  /** One call `emailSender.sendEmail(recipient, subject, body)`. */
  datatype Message = Message(recipient: string, subject: string, body: string)

  /** How a sender call ends: it returns, or it throws an exception with a (nullable) message. */
  datatype SendOutcome = Delivered | Threw(message: Option<string>)

  /** `EmailResponse`: the id, `status.name()` and a human-readable message. */
  datatype EmailResponse = EmailResponse(id: Id, status: string, message: string)

  /** The record sendEmail builds and saves first. */
  function QueuedRecord(req: SendEmailRequest, createdAt: Timestamp): EmailRow
  {
    EmailRow(None, req.recipient, req.subject, req.body, Some(Queued), 0, None, None, Some(createdAt))
  }

  /** The message the sender is given for a record. */
  function MessageOf(row: EmailRow): Message
  {
    Message(row.recipientEmail, row.subject, row.body)
  }

  /** The record after a sender call: SENT with sentAt, or FAILED with the exception's message. */
  function Dispatched(row: EmailRow, outcome: SendOutcome, now: Timestamp): (r: EmailRow)
    ensures SameContent(r, row) && r.retryCount == row.retryCount
    ensures outcome.Delivered? ==>
      r.status == Some(Sent) && r.sentAt == Some(now) && r.errorMessage == row.errorMessage
    ensures outcome.Threw? ==>
      r.status == Some(Failed) && r.sentAt == row.sentAt && r.errorMessage == outcome.message
  {
    match outcome
    case Delivered => row.(status := Some(Sent), sentAt := Some(now))
    case Threw(m) => row.(status := Some(Failed), errorMessage := m)
  }

  /** The record after retryEmail: one more retry, the old error cleared, then sent again. */
  function Retried(row: EmailRow, outcome: SendOutcome, now: Timestamp): (r: EmailRow)
    ensures SameContent(r, row) && r.retryCount == Increment(row.retryCount)
    ensures r.status == Some(if outcome.Delivered? then Sent else Failed)
    ensures r.sentAt == (if outcome.Delivered? then Some(now) else row.sentAt)
    ensures r.errorMessage == (if outcome.Threw? then outcome.message else None)
  {
    Dispatched(row.(retryCount := Increment(row.retryCount), errorMessage := None), outcome, now)
  }

  /** Everything a dispatch may not touch: identity, content, retry count and creation time. */
  predicate SameContent(a: EmailRow, b: EmailRow)
  {
    && a.id == b.id && a.recipientEmail == b.recipientEmail && a.subject == b.subject
    && a.body == b.body && a.createdAt == b.createdAt
  }

  /**
   * The response sendEmail builds from the saved record: its id, its status
   * name, and a success message or the failure prefix followed by the error.
   */
  function SendResponse(row: EmailRow): (r: EmailResponse)
    requires row.id.Some? && row.status.Some?
    ensures r.id == row.id.value && r.status == Name(row.status.value)
    ensures r.message == "Email sent successfully!" <==> row.status == Some(Sent)
    ensures row.status != Some(Sent) ==>
      "Email failed: " <= r.message && r.message[|"Email failed: "|..] == JavaString(row.errorMessage)
  {
    var failed := "Email failed: " + JavaString(row.errorMessage);
    assert failed[6] != "Email sent successfully!"[6];
    EmailResponse(row.id.value, Name(row.status.value),
      if row.status == Some(Sent) then "Email sent successfully!" else failed)
  }

  /** The response retryEmail builds: the same shape with the retry wording. */
  function RetryResponse(id: Id, row: EmailRow): (r: EmailResponse)
    requires row.status.Some?
    ensures r.id == id && r.status == Name(row.status.value)
    ensures r.message == "Retry succeeded!" <==> row.status == Some(Sent)
    ensures row.status != Some(Sent) ==>
      "Retry failed: " <= r.message && r.message[|"Retry failed: "|..] == JavaString(row.errorMessage)
  {
    var failed := "Retry failed: " + JavaString(row.errorMessage);
    assert failed[6] != "Retry succeeded!"[6];
    EmailResponse(id, Name(row.status.value),
      if row.status == Some(Sent) then "Retry succeeded!" else failed)
  }

  /**
   * A retry's result does not depend on the error the record carried before:
   * a failed retry reports the new failure only, a successful one no error at all.
   */
  lemma RetryForgetsOldError(row: EmailRow, outcome: SendOutcome, now: Timestamp, stale: Option<string>)
    ensures Retried(row.(errorMessage := stale), outcome, now) == Retried(row, outcome, now)
    ensures outcome.Delivered? ==> Retried(row, outcome, now).errorMessage == None
    ensures outcome.Threw? ==> Retried(row, outcome, now).errorMessage == outcome.message
  {
  }

  /**
   * Retrying twice against the same sender outcome is retrying once, except
   * that the retry count moves twice: retry is idempotent in effect, not in count.
   */
  lemma RetryIdempotentButCounted(row: EmailRow, outcome: SendOutcome, now: Timestamp)
    ensures var once := Retried(row, outcome, now);
      Retried(once, outcome, now) == once.(retryCount := Increment(once.retryCount))
  {
  }

  /** Below Integer.MAX_VALUE a retry keeps the retry count non-negative. */
  lemma RetryKeepsCountNonNegative(row: EmailRow, outcome: SendOutcome, now: Timestamp)
    requires 0 <= row.retryCount as int < INT_MAX
    ensures Retried(row, outcome, now).retryCount as int == row.retryCount as int + 1 > 0
  {
  }

  class EmailService {
    const repo: EmailRepository
    /** Every call made to the sender, in order. */
    var outbox: seq<Message>

    constructor (repo: EmailRepository)
      ensures this.repo == repo && outbox == []
    {
      this.repo := repo;
      outbox := [];
    }

    /**
     * `sendEmail(request)`: exactly two saves, the QUEUED record then the
     * outcome, and one sender call with the saved record's fields. The
     * sender's exception never escapes; it becomes a FAILED record.
     */
    method SendEmail(req: SendEmailRequest, outcome: SendOutcome, createdAt: Timestamp, sentAt: Timestamp)
      returns (response: EmailResponse)
      requires repo.Valid()
      modifies this, repo
      ensures repo.Valid()
      ensures var id := old(repo.nextId);
        var queued := QueuedRecord(req, createdAt).(id := Some(id));
        var final := Dispatched(queued, outcome, sentAt);
        && id !in old(repo.rows)
        && repo.writes == old(repo.writes) + [queued, final]
        && repo.rows == old(repo.rows)[id := final]
        && outbox == old(outbox) + [Message(req.recipient, req.subject, req.body)]
        && response == SendResponse(final)
      ensures var first := repo.writes[|old(repo.writes)|];
        && first.status == Some(Queued) && first.retryCount == 0
        && first.recipientEmail == req.recipient && first.subject == req.subject && first.body == req.body
      ensures var final := repo.rows[response.id];
        && SameContent(final, repo.writes[|old(repo.writes)|])
        && final.retryCount == 0
        && (outcome.Delivered? ==>
              && final.status == Some(Sent) && final.sentAt == Some(sentAt) && final.errorMessage == None
              && response.status == "SENT" && response.message == "Email sent successfully!")
        && (outcome.Threw? ==>
              && final.status == Some(Failed) && final.sentAt == None && final.errorMessage == outcome.message
              && response.status == "FAILED"
              && response.message == "Email failed: " + JavaString(outcome.message))
    {
      ghost var id := repo.nextId;
      ghost var queued := QueuedRecord(req, createdAt).(id := Some(id));
      var email := new Email(QueuedRecord(req, createdAt));
      repo.Save(email, createdAt);
      assert email.Row() == queued;
      var saved := email;
      outbox := outbox + [Message(saved.recipientEmail, saved.subject, saved.body)];
      match outcome {
        case Delivered =>
          saved.status := Some(Sent);
          saved.sentAt := Some(sentAt);
        case Threw(m) =>
          saved.status := Some(Failed);
          saved.errorMessage := m;
      }
      assert saved.Row() == Dispatched(queued, outcome, sentAt);
      repo.Save(saved, sentAt);
      response := SendResponse(saved.Row());
    }

    /**
     * `retryEmail(id)`: a missing id throws before anything is sent or saved;
     * otherwise one sender call and exactly one save of the retried record.
     * There is no precondition on the record's status.
     */
    method RetryEmail(id: Id, outcome: SendOutcome, now: Timestamp)
      returns (result: Result<EmailResponse, ServiceError>)
      requires repo.Valid()
      modifies this, repo
      ensures repo.Valid()
      ensures id !in old(repo.rows) ==>
        && result == Failure(NoSuchElement(id))
        && repo.rows == old(repo.rows) && repo.writes == old(repo.writes)
        && repo.nextId == old(repo.nextId) && outbox == old(outbox)
      ensures id in old(repo.rows) ==>
        var before := old(repo.rows)[id];
        var after := Retried(before, outcome, now);
        && repo.rows == old(repo.rows)[id := after]
        && repo.writes == old(repo.writes) + [after]
        && repo.nextId == old(repo.nextId)
        && outbox == old(outbox) + [MessageOf(before)]
        && result == Success(RetryResponse(id, after))
      ensures id in old(repo.rows) ==>
        var before := old(repo.rows)[id];
        var after := repo.rows[id];
        && SameContent(after, before)
        && after.retryCount == Increment(before.retryCount)
        && (outcome.Delivered? ==>
              after.status == Some(Sent) && after.sentAt == Some(now) && after.errorMessage == None)
        && (outcome.Threw? ==>
              after.status == Some(Failed) && after.sentAt == before.sentAt
              && after.errorMessage == outcome.message)
        && result.Success? && result.value.id == id
    {
      var email := repo.FindById(id);
      if email == null {
        return Failure(NoSuchElement(id));
      }
      email.retryCount := Increment(email.retryCount);
      email.errorMessage := None;
      outbox := outbox + [Message(email.recipientEmail, email.subject, email.body)];
      match outcome {
        case Delivered =>
          email.status := Some(Sent);
          email.sentAt := Some(now);
        case Threw(m) =>
          email.status := Some(Failed);
          email.errorMessage := m;
      }
      repo.Save(email, now);
      result := Success(RetryResponse(id, email.Row()));
    }

    /** `getEmailById(id)`: the stored record, or NoSuchElementException. */
    function GetEmailById(id: Id): (result: Result<EmailRow, ServiceError>)
      reads repo
      requires repo.Valid()
      ensures result.Success? <==> id in repo.rows
      ensures result.Success? ==> result.value == repo.rows[id] && result.value.id == Some(id)
      ensures result.Failure? ==> result.error == NoSuchElement(id)
    {
      if id in repo.rows then Success(repo.rows[id]) else Failure(NoSuchElement(id))
    }

    /** `getAllEmails()`: every stored record, once each. */
    function GetAllEmails(): (all: seq<EmailRow>)
      reads repo
      requires repo.Valid()
      ensures forall i :: 0 <= i < |all| ==> all[i].id.Some? && all[i].id.value in repo.rows && repo.rows[all[i].id.value] == all[i]
      ensures forall id :: id in repo.rows ==> exists i :: 0 <= i < |all| && all[i] == repo.rows[id]
      ensures |all| == |repo.rows|
      ensures forall i, j :: 0 <= i < j < |all| ==> all[i].id != all[j].id
    {
      repo.FindAll()
    }
  }
}
