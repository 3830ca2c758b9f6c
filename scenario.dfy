/**
 * The engine's parts composed: a send followed by a provider event on a
 * fresh store, proved from the operations' contracts alone.
 */
module Scenario {
  import opened Wrappers
  import opened Status
  import opened Entity
  import opened EmailStore
  import opened Dispatch
  import opened Webhook

  /**
   * Send to a@x.com with a sender that succeeds, then receive the event
   * {email: "a@x.com", event: "failed"}: the send reports SENT, and the stored
   * record ends FAILED (last write wins) with no error message and its sentAt kept.
   */
  method SendThenProviderFailure() returns (response: EmailResponse, stored: EmailRow, outcome: BatchOutcome)
    ensures response.status == "SENT" && response.message == "Email sent successfully!"
    ensures outcome == Completed
    ensures stored.status == Some(Failed) && stored.errorMessage == None && stored.sentAt == Some(2)
    ensures stored.retryCount == 0 && stored.recipientEmail == "a@x.com"
  {
    var repo := new EmailRepository();
    var mail := new EmailService(repo);
    var hooks := new WebhookService(repo, {});
    response := mail.SendEmail(SendEmailRequest("a@x.com", "Hi", "Body"), Delivered, 1, 2);
    ghost var sent := repo.rows;
    assert sent.Keys == {0};
    assert Matches(sent, "a@x.com") == {0};
    UpperCasesTo("failed", "FAILED");
    var ev := WebhookEvent(Some("a@x.com"), Some("failed"));
    assert EffectOf(sent, ev, {}) == Update(0, sent[0].(status := Some(Failed)));
    outcome := hooks.ProcessSendGridEvents([ev], 3);
    assert [ev][1..] == [];
    stored := repo.rows[response.id];
  }
}
