/** The mail relay as the pipeline sees it: every send attempt is recorded in
    an outbox, and whether the relay accepted the message is an outcome the
    model does not determine. Message formatting and SMTP are not modelled. */
module Notifier {
  import opened Common

  datatype Email =
    | AlertEmail(to: string, currency: string, condition: string, threshold: real, currentPrice: real)
    | AdminEmail(to: string, taskName: string, message: string)

  /** Is an operator address configured (`ADMIN_EMAIL` set and non-empty)? */
  predicate Configured(admin: Option<string>)
  {
    admin.Some? && admin.value != ""
  }

  /** The messages a failure report sends: one to the operator, or none when
      no operator address is configured. */
  function AdminNotice(admin: Option<string>, message: string, taskName: string): (mails: seq<Email>)
    ensures |mails| <= 1
    ensures |mails| == 1 <==> Configured(admin)
    ensures forall m :: m in mails ==> m == AdminEmail(admin.value, taskName, message)
  {
    if Configured(admin) then [AdminEmail(admin.value, taskName, message)] else []
  }

  class Mailer {
    /** Every message handed to the relay, in order. */
    var outbox: seq<Email>
    const adminEmail: Option<string>

    constructor (adminEmail: Option<string>)
      ensures this.adminEmail == adminEmail && outbox == []
    {
      this.adminEmail := adminEmail;
      outbox := [];
    }

    /** `send_alert_email`: one attempt; delivery may fail, reported as false. */
    method SendAlertEmail(to: string, currency: string, condition: string, threshold: real, currentPrice: real)
      returns (delivered: bool)
      modifies this
      ensures outbox == old(outbox) + [AlertEmail(to, currency, condition, threshold, currentPrice)]
    {
      outbox := outbox + [AlertEmail(to, currency, condition, threshold, currentPrice)];
      delivered := *;
    }

    /** `send_admin_alert`: a no-op answering false without an operator address. */
    method SendAdminAlert(message: string, taskName: string) returns (delivered: bool)
      modifies this
      ensures outbox == old(outbox) + AdminNotice(adminEmail, message, taskName)
      ensures !Configured(adminEmail) ==> !delivered
    {
      if !Configured(adminEmail) {
        return false;
      }
      outbox := outbox + [AdminEmail(adminEmail.value, taskName, message)];
      delivered := *;
    }
  }
}
