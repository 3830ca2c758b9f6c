/**
 * The persisted email record (the `Email` JPA entity) and its @PrePersist defaults.
 *
 * `Email` is the in-memory entity whose setters the services call; `EmailRow`
 * is the value one row of the `emails` table holds, i.e. a snapshot of an entity.
 */
module Entity {
  import opened Wrappers
  import opened Status

  /** A generated entity id (a UUID in the source; any fresh value will do here). */
  type Id = nat

  /** A `LocalDateTime` reading. */
  type Timestamp = int

  const INT_MIN: int := -0x8000_0000
  const INT_MAX: int := 0x7fff_ffff

  /** Java's 32-bit `int`. */
  newtype Int32 = x: int | -0x8000_0000 <= x <= 0x7fff_ffff

  /** Java's `x + 1` on an `int`: the successor modulo 2^32, in the signed range. */
  function Increment(x: Int32): (r: Int32)
    ensures (r as int - x as int - 1) % 0x1_0000_0000 == 0
    ensures x as int < INT_MAX ==> r as int > x as int
  {
    if x as int == INT_MAX then INT_MIN as Int32 else x + 1
  }

  /**
   * One row of the `emails` table. recipientEmail, subject, body and
   * retryCount are NOT NULL columns; the others are nullable.
   */
  datatype EmailRow = EmailRow(
    id: Option<Id>,
    recipientEmail: string,
    subject: string,
    body: string,
    status: Option<EmailStatus>,
    retryCount: Int32,
    errorMessage: Option<string>,
    sentAt: Option<Timestamp>,
    createdAt: Option<Timestamp>)

  /** The row after the @PrePersist callback has run at time `now`. */
  function WithDefaults(row: EmailRow, now: Timestamp): (r: EmailRow)
    ensures r.createdAt.Some? && r.status.Some?
    ensures row.createdAt.Some? ==> r.createdAt == row.createdAt
    ensures row.createdAt.None? ==> r.createdAt == Some(now)
    ensures row.status.Some? ==> r.status == row.status
    ensures row.status.None? ==> r.status == Some(Queued)
    ensures r == row.(createdAt := r.createdAt, status := r.status)
  {
    var stamped := if row.createdAt.None? then row.(createdAt := Some(now)) else row;
    if stamped.status.None? then stamped.(status := Some(Queued)) else stamped
  }

  /** prePersist is idempotent, whatever the clock says the second time. */
  lemma WithDefaultsIdempotent(row: EmailRow, now: Timestamp, later: Timestamp)
    ensures WithDefaults(WithDefaults(row, now), later) == WithDefaults(row, now)
  {
  }

  /** The `Email` entity: a mutable object with one field per column. */
  class Email {
    var id: Option<Id>
    var recipientEmail: string
    var subject: string
    var body: string
    var status: Option<EmailStatus>
    var retryCount: Int32
    var errorMessage: Option<string>
    var sentAt: Option<Timestamp>
    var createdAt: Option<Timestamp>

    /** The row this entity is written as. */
    function Row(): EmailRow
      reads this
    {
      EmailRow(id, recipientEmail, subject, body, status, retryCount, errorMessage, sentAt, createdAt)
    }

    /** `Email.builder()...build()`, or a load from a stored row. */
    constructor (row: EmailRow)
      ensures Row() == row
    {
      id := row.id;
      recipientEmail := row.recipientEmail;
      subject := row.subject;
      body := row.body;
      status := row.status;
      retryCount := row.retryCount;
      errorMessage := row.errorMessage;
      sentAt := row.sentAt;
      createdAt := row.createdAt;
    }

    /** The @PrePersist callback: fill in createdAt and status where they are null. */
    method PrePersist(now: Timestamp)
      modifies this
      ensures Row() == WithDefaults(old(Row()), now)
    {
      if createdAt.None? {
        createdAt := Some(now);
      }
      if status.None? {
        status := Some(Queued);
      }
    }
  }
}
