/**
 * The booking modal (openBookingModal / closeBookingModal, main.js:139-166),
 * the three ways it is closed (close button, backdrop click, Escape;
 * main.js:169-185) and the booking submit handler with its simulated send
 * split into two steps (main.js:202-233).
 *
 * The page elements the functions touch are the fields of one object:
 * the modal's style.display, the body's style.overflow, the modal title's
 * text, the booking form's field values and its submit button.
 */
module BookingModal {
  import opened Wrappers
  import opened ServiceCatalog
  import opened Submission

  /** Everything the modal functions read or write, except the submit button. */
  datatype ModalView = ModalView(display: string, overflow: string, title: string, form: BookingRequest)

  /**
   * What form.reset() leaves in the booking form: every control returns to
   * its default value, except the hidden service-type input, whose default
   * is rewritten whenever its value is assigned (the "default" value mode of
   * hidden inputs in HTML), so it keeps its current value.
   */
  function ResetBookingForm(current: BookingRequest, defaults: BookingRequest): (r: BookingRequest)
    ensures r.serviceType == current.serviceType
    ensures r.(serviceType := defaults.serviceType) == defaults
  {
    defaults.(serviceType := current.serviceType)
  }

  /** The state openBookingModal(serviceType) leaves (main.js:139-160). */
  function OpenedView(v: ModalView, serviceType: string): ModalView
  {
    match Lookup(serviceType)
    case None => v
    case Some(service) =>
      var form := v.form.(serviceType := serviceType);
      var form' := if service.defaultBudget != "" then form.(budget := service.defaultBudget) else form;
      ModalView("block", "hidden", service.title, form')
  }

  /** The state closeBookingModal() leaves (main.js:162-166). */
  function ClosedView(v: ModalView, defaults: BookingRequest): ModalView
  {
    v.(display := "none", overflow := "auto", form := ResetBookingForm(v.form, defaults))
  }

  /** The keydown listener closes the modal only for Escape while the modal is shown (main.js:180-184). */
  function KeyDownView(v: ModalView, key: string, defaults: BookingRequest): ModalView
  {
    if key == "Escape" && v.display == "block" then ClosedView(v, defaults) else v
  }

  /** An identifier outside the catalog leaves the whole modal state as it was. */
  lemma OpenUnknownIsNoOp(v: ModalView, serviceType: string)
    requires serviceType !in Catalog
    ensures OpenedView(v, serviceType) == v
  {
  }

  /** A catalog identifier shows the modal, suspends scrolling and seeds it from the catalog. */
  lemma OpenKnownSeedsModal(v: ModalView, serviceType: string)
    requires serviceType in Catalog
    ensures OpenedView(v, serviceType).display == "block"
    ensures OpenedView(v, serviceType).overflow == "hidden"
    ensures OpenedView(v, serviceType).title == Catalog[serviceType].title
    ensures OpenedView(v, serviceType).form ==
            v.form.(serviceType := serviceType, budget := Catalog[serviceType].defaultBudget)
  {
  }

  lemma OpenCorporateExample(v: ModalView)
    ensures OpenedView(v, "corporate").title == "Book Corporate Headshots"
    ensures OpenedView(v, "corporate").form.budget == "1000-2500"
    ensures OpenedView(v, "corporate").form.serviceType == "corporate"
  {
  }

  /** Closing hides the modal, restores scrolling and clears every entered value, whatever the state. */
  lemma CloseRestores(v: ModalView, defaults: BookingRequest)
    ensures ClosedView(v, defaults).display == "none"
    ensures ClosedView(v, defaults).overflow == "auto"
    ensures ClosedView(v, defaults).form.(serviceType := defaults.serviceType) == defaults
    ensures ClosedView(v, defaults).title == v.title
  {
  }

  /** Closing twice is closing once. */
  lemma CloseIdempotent(v: ModalView, defaults: BookingRequest)
    ensures ClosedView(ClosedView(v, defaults), defaults) == ClosedView(v, defaults)
  {
  }

  /** Escape closes the modal exactly when it is shown; every other key, or a hidden modal, changes nothing. */
  lemma KeyDownClosesOnlyOpenModal(v: ModalView, key: string, defaults: BookingRequest)
    ensures key == "Escape" && v.display == "block" ==> KeyDownView(v, key, defaults) == ClosedView(v, defaults)
    ensures key != "Escape" || v.display != "block" ==> KeyDownView(v, key, defaults) == v
  {
  }

  /** What the booking handler's timer continuation needs: the collected request and the button's label. */
  datatype PendingBooking = PendingBooking(request: BookingRequest, originalText: string)

  class BookingModalController {
    var display: string         // bookingModal.style.display
    var bodyOverflow: string    // document.body.style.overflow
    var title: string           // modalTitle.textContent
    var form: BookingRequest    // the booking form's field values
    const defaults: BookingRequest  // the values form.reset() restores
    var submitText: string      // submitBtn.textContent
    var submitDisabled: bool    // submitBtn.disabled

    function View(): ModalView
      reads this
    {
      ModalView(display, bodyOverflow, title, form)
    }

    /** The page as loaded: no inline display or overflow style, the form at its defaults. */
    constructor (defaults: BookingRequest, title: string, submitText: string)
      ensures this.defaults == defaults
      ensures View() == ModalView("", "", title, defaults)
      ensures this.submitText == submitText && !submitDisabled
    {
      this.display := "";
      this.bodyOverflow := "";
      this.title := title;
      this.form := defaults;
      this.defaults := defaults;
      this.submitText := submitText;
      this.submitDisabled := false;
    }

    /** openBookingModal(serviceType); the delayed focus of the first field is not modelled. */
    method Open(serviceType: string)
      modifies this
      ensures View() == OpenedView(old(View()), serviceType)
      ensures submitText == old(submitText) && submitDisabled == old(submitDisabled)
    {
      var service := Lookup(serviceType);
      if service.Some? {
        form := form.(serviceType := serviceType);
        title := service.value.title;
        if service.value.defaultBudget != "" {
          form := form.(budget := service.value.defaultBudget);
        }
        display := "block";
        bodyOverflow := "hidden";
      }
    }

    /** closeBookingModal(): also what the close button and a backdrop click run. */
    method Close()
      modifies this
      ensures View() == ClosedView(old(View()), defaults)
      ensures submitText == old(submitText) && submitDisabled == old(submitDisabled)
    {
      display := "none";
      bodyOverflow := "auto";
      form := ResetBookingForm(form, defaults);
    }

    /** The window click listener: closes only when the click landed on the modal backdrop itself. */
    method OnWindowClick(targetIsBackdrop: bool)
      modifies this
      ensures View() == if targetIsBackdrop then ClosedView(old(View()), defaults) else old(View())
      ensures submitText == old(submitText) && submitDisabled == old(submitDisabled)
    {
      if targetIsBackdrop {
        Close();
      }
    }

    /** The document keydown listener. */
    method OnKeyDown(key: string)
      modifies this
      ensures View() == KeyDownView(old(View()), key, defaults)
      ensures submitText == old(submitText) && submitDisabled == old(submitDisabled)
    {
      if key == "Escape" && display == "block" {
        Close();
      }
    }

    /** handleBookingSubmission up to the timer: collect the fields, put the button in its busy state. */
    method BeginSubmission() returns (pending: PendingBooking)
      modifies this
      ensures pending == PendingBooking(old(form), old(submitText))
      ensures submitText == BookingBusyText && submitDisabled
      ensures View() == old(View())
    {
      pending := PendingBooking(form, submitText);
      submitText := BookingBusyText;
      submitDisabled := true;
    }

    /** The timer continuation: acknowledge, close the modal, restore the button. */
    method CompleteSubmission(pending: PendingBooking) returns (acknowledgment: string)
      modifies this
      ensures acknowledgment == BookingAcknowledgment(pending.request)
      ensures View() == ClosedView(old(View()), defaults)
      ensures submitText == pending.originalText && !submitDisabled
    {
      acknowledgment := BookingAcknowledgment(pending.request);
      Close();
      submitText := pending.originalText;
      submitDisabled := false;
    }

    /**
     * One whole submission with the simulated delay elapsed and nothing in
     * between: the acknowledgment names the client, the modal ends closed and
     * the button is back to its label, enabled.
     */
    method Submit() returns (acknowledgment: string)
      modifies this
      ensures acknowledgment == BookingAcknowledgment(old(form))
      ensures Mentions(acknowledgment, old(form).clientName) && Mentions(acknowledgment, old(form).clientEmail)
      ensures View() == ClosedView(old(View()), defaults)
      ensures display == "none" && bodyOverflow == "auto"
      ensures submitText == old(submitText) && !submitDisabled
    {
      var pending := BeginSubmission();
      acknowledgment := CompleteSubmission(pending);
      BookingAcknowledgmentMentions(pending.request);
    }
  }
}
