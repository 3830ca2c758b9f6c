/**
 * The webhook reconciler (`WebhookServiceImpl.processSendGridEvents`): for
 * each provider event, in list order, find the record by recipient and
 * overwrite its status with the case-insensitively parsed event name.
 *
 * An unknown event name (IllegalArgumentException) is caught and the event
 * skipped. Two failures are NOT caught and end the batch, leaving the saves
 * already made: a recipient shared by several records (the repository's
 * IncorrectResultSize error) and a matched event with no "event" entry
 * (NullPointerException from toUpperCase).
 */
module Webhook {
  import opened Wrappers
  import opened Status
  import opened Entity
  import opened EmailStore

  /** One `{email, event}` map of the batch; a missing key reads as null. */
  datatype WebhookEvent = WebhookEvent(email: Option<string>, event: Option<string>)

  datatype AbortReason = IncorrectResultSize | NullEventType

  datatype BatchOutcome = Completed | Aborted(reason: AbortReason)

  /** What one event does to the store. */
  datatype EventEffect = Skip | Update(id: Id, row: EmailRow) | Abort(reason: AbortReason)

  /** The effect of one event on the table `rows`. */
  ghost function EffectOf(rows: map<Id, EmailRow>, ev: WebhookEvent, extras: set<string>): (eff: EventEffect)
    ensures eff.Update? <==>
      RecipientLookup(rows, ev.email).Unique? && ev.event.Some? && Parse(ev.event.value, extras).Some?
    ensures eff.Update? ==>
      && eff.id == RecipientLookup(rows, ev.email).id
      && eff.row.status == Parse(ev.event.value, extras)
    ensures eff.Update? ==> eff.id in rows && eff.row == rows[eff.id].(status := eff.row.status)
    ensures eff.Skip? <==>
      || RecipientLookup(rows, ev.email).NoMatch?
      || (RecipientLookup(rows, ev.email).Unique? && ev.event.Some? && Parse(ev.event.value, extras).None?)
    ensures eff == Abort(IncorrectResultSize) <==> RecipientLookup(rows, ev.email).NotUnique?
    ensures eff == Abort(NullEventType) <==> RecipientLookup(rows, ev.email).Unique? && ev.event.None?
  {
    match RecipientLookup(rows, ev.email)
    case NoMatch => Skip
    case NotUnique => Abort(IncorrectResultSize)
    case Unique(id) =>
      if ev.event.None? then Abort(NullEventType)
      else match Parse(ev.event.value, extras)
        case None => Skip
        case Some(s) => Update(id, rows[id].(status := Some(s)))
  }

  /** The table after a batch, the rows saved (in order) and how the batch ended. */
  datatype Replay = Replay(rows: map<Id, EmailRow>, writes: seq<EmailRow>, outcome: BatchOutcome)

  /** The batch applied to `rows`, one event at a time, in list order. */
  ghost function Reconcile(rows: map<Id, EmailRow>, events: seq<WebhookEvent>, extras: set<string>): (r: Replay)
    ensures r.rows.Keys == rows.Keys
    ensures |r.writes| <= |events|
    ensures r.writes == [] ==> r.rows == rows
    decreases |events|
  {
    if events == [] then Replay(rows, [], Completed)
    else
      match EffectOf(rows, events[0], extras)
      case Skip => Reconcile(rows, events[1..], extras)
      case Abort(reason) => Replay(rows, [], Aborted(reason))
      case Update(id, row) =>
        var rest := Reconcile(rows[id := row], events[1..], extras);
        rest.(writes := [row] + rest.writes)
  }

  /** Two tables with the same ids and the same recipient for each id. */
  ghost predicate SameRecipients(a: map<Id, EmailRow>, b: map<Id, EmailRow>)
  {
    a.Keys == b.Keys && forall id :: id in a ==> a[id].recipientEmail == b[id].recipientEmail
  }

  /** The status an event writes, and to which record, when it writes at all. */
  ghost function Verdict(rows: map<Id, EmailRow>, ev: WebhookEvent, extras: set<string>): Option<(Id, EmailStatus)>
  {
    match EffectOf(rows, ev, extras)
    case Update(id, row) => Some((id, row.status.value))
    case _ => None
  }

  /** Lookup by recipient only sees ids and recipients, so neither does an event's verdict or whether it aborts. */
  lemma EffectStable(a: map<Id, EmailRow>, b: map<Id, EmailRow>, ev: WebhookEvent, extras: set<string>)
    requires SameRecipients(a, b)
    ensures Verdict(a, ev, extras) == Verdict(b, ev, extras)
    ensures EffectOf(a, ev, extras).Abort? == EffectOf(b, ev, extras).Abort?
    ensures EffectOf(a, ev, extras).Abort? ==> EffectOf(a, ev, extras) == EffectOf(b, ev, extras)
  {
    if ev.email.Some? {
      assert Matches(a, ev.email.value) == Matches(b, ev.email.value);
    }
  }

  /**
   * The webhook writes statuses and nothing else: the same ids, and every
   * other field (recipient, error message, sentAt, retry count, ...) unchanged.
   */
  lemma {:induction false} ReconcileOnlyChangesStatus(rows: map<Id, EmailRow>, events: seq<WebhookEvent>, extras: set<string>)
    ensures var r := Reconcile(rows, events, extras);
      && r.rows.Keys == rows.Keys
      && forall id :: id in rows ==> r.rows[id] == rows[id].(status := r.rows[id].status)
    decreases |events|
  {
    if events != [] {
      match EffectOf(rows, events[0], extras)
      case Skip => ReconcileOnlyChangesStatus(rows, events[1..], extras);
      case Abort(_) =>
      case Update(id, row) => ReconcileOnlyChangesStatus(rows[id := row], events[1..], extras);
    }
  }

  /** How many events of the batch both match one record and carry a known status. */
  ghost function CountApplicable(rows: map<Id, EmailRow>, events: seq<WebhookEvent>, extras: set<string>): nat
    decreases |events|
  {
    if events == [] then 0
    else (if Verdict(rows, events[0], extras).Some? then 1 else 0) + CountApplicable(rows, events[1..], extras)
  }

  lemma {:induction false} CountApplicableStable(a: map<Id, EmailRow>, b: map<Id, EmailRow>, events: seq<WebhookEvent>, extras: set<string>)
    requires SameRecipients(a, b)
    ensures CountApplicable(a, events, extras) == CountApplicable(b, events, extras)
    decreases |events|
  {
    if events != [] {
      EffectStable(a, b, events[0], extras);
      CountApplicableStable(a, b, events[1..], extras);
    }
  }

  /**
   * A batch that runs to the end saves once per event that matches a record
   * and parses, and never for the others.
   */
  lemma {:induction false} ReconcileSaveCount(rows: map<Id, EmailRow>, events: seq<WebhookEvent>, extras: set<string>)
    requires Reconcile(rows, events, extras).outcome == Completed
    ensures |Reconcile(rows, events, extras).writes| == CountApplicable(rows, events, extras)
    decreases |events|
  {
    if events != [] {
      match EffectOf(rows, events[0], extras)
      case Skip => ReconcileSaveCount(rows, events[1..], extras);
      case Abort(_) =>
      case Update(id, row) =>
        ReconcileSaveCount(rows[id := row], events[1..], extras);
        CountApplicableStable(rows[id := row], rows, events[1..], extras);
    }
  }

  /** The status the last applicable event of the batch names for record `id`, if any. */
  ghost function LastStatusFor(rows: map<Id, EmailRow>, events: seq<WebhookEvent>, id: Id, extras: set<string>): Option<EmailStatus>
    decreases |events|
  {
    if events == [] then None
    else
      var later := LastStatusFor(rows, events[1..], id, extras);
      if later.Some? then later
      else match Verdict(rows, events[0], extras)
        case Some((target, s)) => if target == id then Some(s) else None
        case None => None
  }

  lemma {:induction false} LastStatusForStable(a: map<Id, EmailRow>, b: map<Id, EmailRow>, events: seq<WebhookEvent>, id: Id, extras: set<string>)
    requires SameRecipients(a, b)
    ensures LastStatusFor(a, events, id, extras) == LastStatusFor(b, events, id, extras)
    decreases |events|
  {
    if events != [] {
      EffectStable(a, b, events[0], extras);
      LastStatusForStable(a, b, events[1..], id, extras);
    }
  }

  /**
   * Last write wins: after a batch that runs to the end, each record's status
   * is the one named by the last event that matched it and parsed, or its old
   * status if there was none. Events are not ordered by time or deduplicated.
   */
  lemma {:induction false} ReconcileLastWriteWins(rows: map<Id, EmailRow>, events: seq<WebhookEvent>, id: Id, extras: set<string>)
    requires id in rows
    requires Reconcile(rows, events, extras).outcome == Completed
    ensures id in Reconcile(rows, events, extras).rows
    ensures Reconcile(rows, events, extras).rows[id].status ==
      match LastStatusFor(rows, events, id, extras)
      case Some(s) => Some(s)
      case None => rows[id].status
    decreases |events|
  {
    ReconcileOnlyChangesStatus(rows, events, extras);
    if events != [] {
      match EffectOf(rows, events[0], extras)
      case Skip => ReconcileLastWriteWins(rows, events[1..], id, extras);
      case Abort(_) =>
      case Update(target, row) =>
        ReconcileLastWriteWins(rows[target := row], events[1..], id, extras);
        LastStatusForStable(rows[target := row], rows, events[1..], id, extras);
    }
  }

  /** Processing two batches one after the other is processing their concatenation. */
  lemma {:induction false} ReconcileConcat(rows: map<Id, EmailRow>, a: seq<WebhookEvent>, b: seq<WebhookEvent>, extras: set<string>)
    ensures var first := Reconcile(rows, a, extras);
      Reconcile(rows, a + b, extras) ==
        if first.outcome.Aborted? then first
        else
          var second := Reconcile(first.rows, b, extras);
          second.(writes := first.writes + second.writes)
    decreases |a|
  {
    if a == [] {
      assert a + b == b;
    } else {
      var ab := a + b;
      assert ab[0] == a[0];
      assert ab[1..] == a[1..] + b;
      match EffectOf(rows, a[0], extras)
      case Skip =>
        ReconcileConcat(rows, a[1..], b, extras);
        assert Reconcile(rows, ab, extras) == Reconcile(rows, a[1..] + b, extras);
      case Abort(_) =>
      case Update(id, row) =>
        ReconcileConcat(rows[id := row], a[1..], b, extras);
        var tail := Reconcile(rows[id := row], a[1..] + b, extras);
        assert Reconcile(rows, ab, extras) == tail.(writes := [row] + tail.writes);
        var first := Reconcile(rows[id := row], a[1..], extras);
        if first.outcome.Completed? {
          var second := Reconcile(first.rows, b, extras);
          assert [row] + (first.writes + second.writes) == ([row] + first.writes) + second.writes;
        }
    }
  }

  /** The end result of a batch whose first events saved `done` and whose remaining events are `tail`. */
  ghost function Resumed(done: seq<EmailRow>, rows: map<Id, EmailRow>, tail: seq<WebhookEvent>, extras: set<string>): Replay
  {
    var rest := Reconcile(rows, tail, extras);
    rest.(writes := done + rest.writes)
  }

  class WebhookService {
    const repo: EmailRepository
    /** The names of the EmailStatus constants beyond QUEUED, SENT and FAILED. */
    const extras: set<string>

    constructor (repo: EmailRepository, extras: set<string>)
      ensures this.repo == repo && this.extras == extras
    {
      this.repo := repo;
      this.extras := extras;
    }

    /** The body of the loop for one event: look up, parse, set the status and save. */
    method ProcessEvent(ev: WebhookEvent, now: Timestamp) returns (abort: Option<AbortReason>)
      requires repo.Valid()
      modifies repo
      ensures repo.Valid() && repo.nextId == old(repo.nextId)
      ensures match EffectOf(old(repo.rows), ev, extras)
        case Skip => abort == None && repo.rows == old(repo.rows) && repo.writes == old(repo.writes)
        case Abort(reason) => abort == Some(reason) && repo.rows == old(repo.rows) && repo.writes == old(repo.writes)
        case Update(id, row) => abort == None && repo.rows == old(repo.rows)[id := row] && repo.writes == old(repo.writes) + [row]
    {
      var found, email := repo.FindByRecipientEmail(ev.email);
      match found {
        case NoMatch =>
          return None;
        case NotUnique =>
          return Some(IncorrectResultSize);
        case Unique(id) =>
          if ev.event.None? {
            return Some(NullEventType);
          }
          var parsed := Parse(ev.event.value, extras);
          if parsed.Some? {
            email.status := parsed;
            repo.Save(email, now);
          }
          return None;
      }
    }

    /** `processSendGridEvents(events)`; `now` is only the clock a save would stamp a new row with. */
    method ProcessSendGridEvents(events: seq<WebhookEvent>, now: Timestamp) returns (outcome: BatchOutcome)
      requires repo.Valid()
      modifies repo
      ensures repo.Valid() && repo.nextId == old(repo.nextId)
      ensures var r := Reconcile(old(repo.rows), events, extras);
        repo.rows == r.rows && repo.writes == old(repo.writes) + r.writes && outcome == r.outcome
    {
      ghost var done: seq<EmailRow> := [];
      var i := 0;
      while i < |events|
        invariant 0 <= i <= |events|
        invariant repo.Valid() && repo.nextId == old(repo.nextId)
        invariant repo.writes == old(repo.writes) + done
        invariant Reconcile(old(repo.rows), events, extras) == Resumed(done, repo.rows, events[i..], extras)
      {
        assert events[i..][0] == events[i] && events[i..][1..] == events[i + 1..];
        ghost var before, logged := repo.rows, repo.writes;
        ghost var eff := EffectOf(before, events[i], extras);
        var abort := ProcessEvent(events[i], now);
        if abort.Some? {
          assert Resumed(done, before, events[i..], extras).outcome == Aborted(abort.value);
          return Aborted(abort.value);
        }
        ghost var rest := Reconcile(repo.rows, events[i + 1..], extras);
        if eff.Update? {
          assert Reconcile(before, events[i..], extras) == rest.(writes := [eff.row] + rest.writes);
          assert done + ([eff.row] + rest.writes) == (done + [eff.row]) + rest.writes;
          done := done + [eff.row];
        } else {
          assert Reconcile(before, events[i..], extras) == rest;
        }
        i := i + 1;
      }
      outcome := Completed;
    }
  }
}
