/** The contact form's submit handler with its simulated send split into two steps (main.js:235-260). */
module ContactForm {
  import opened Submission

  /** What the contact handler's timer continuation needs: the collected request and the button's label. */
  datatype PendingContact = PendingContact(request: ContactRequest, originalText: string)

  class ContactFormController {
    var fields: ContactRequest      // the contact form's field values
    const defaults: ContactRequest  // the values form.reset() restores
    var submitText: string          // submitBtn.textContent
    var submitDisabled: bool        // submitBtn.disabled

    constructor (defaults: ContactRequest, submitText: string)
      ensures this.defaults == defaults && fields == defaults
      ensures this.submitText == submitText && !submitDisabled
    {
      this.fields := defaults;
      this.defaults := defaults;
      this.submitText := submitText;
      this.submitDisabled := false;
    }

    /** handleContactSubmission up to the timer: collect the fields, put the button in its busy state. */
    method BeginSubmission() returns (pending: PendingContact)
      modifies this
      ensures pending == PendingContact(old(fields), old(submitText))
      ensures submitText == ContactBusyText && submitDisabled
      ensures fields == old(fields)
    {
      pending := PendingContact(fields, submitText);
      submitText := ContactBusyText;
      submitDisabled := true;
    }

    /** The timer continuation: acknowledge, reset the form, restore the button. */
    method CompleteSubmission(pending: PendingContact) returns (acknowledgment: string)
      modifies this
      ensures acknowledgment == ContactAcknowledgment(pending.request)
      ensures fields == defaults
      ensures submitText == pending.originalText && !submitDisabled
    {
      acknowledgment := ContactAcknowledgment(pending.request);
      fields := defaults;
      submitText := pending.originalText;
      submitDisabled := false;
    }

    /** One whole submission with the simulated delay elapsed and nothing in between. */
    method Submit() returns (acknowledgment: string)
      modifies this
      ensures acknowledgment == ContactAcknowledgment(old(fields))
      ensures Mentions(acknowledgment, old(fields).name) && Mentions(acknowledgment, old(fields).email)
      ensures fields == defaults
      ensures submitText == old(submitText) && !submitDisabled
    {
      var pending := BeginSubmission();
      acknowledgment := CompleteSubmission(pending);
      ContactAcknowledgmentMentions(pending.request);
    }
  }
}
