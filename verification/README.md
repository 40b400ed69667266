# Jake Walker Photography site script — verified model of its interactive core

The site script (`main.js`) wires a one-page photography site: a booking
modal opened per service, a booking form and a contact form whose sends are
simulated with a timer, blur-time validation of email and telephone inputs
with inline error annotations, and a portfolio category filter. This
project models the parts of it that are sequential rules, over plain data,
and proves what they promise.

- `validation.dfy` (module `Validation`): `validateEmail` and
  `validatePhone`. Each regular expression is the deterministic automaton
  that recognises it, run character by character, and each automaton is
  proved to accept exactly a plain-words description of the accepted
  strings. The phone number's stripping step is a recursive filter proved
  to keep exactly the digits and `+` signs, in order, and to be idempotent.
- `service_catalog.dfy` (module `ServiceCatalog`): the `serviceData` and
  `serviceNames` tables, the soft-failing lookup and the
  `'Photography Service'` fallback.
- `submission.dfy` (module `Submission`): the booking and contact request
  records and the acknowledgment texts, proved to name the client, the
  reply address and the service.
- `booking_modal.dfy` (module `BookingModal`): the modal's state as a class
  whose fields are the page values the script assigns (display, body
  overflow, title, form values, submit button). Opening, closing, the
  backdrop click, the Escape key and the two steps of a booking submission
  are methods proved against pure transition functions, and the lemmas
  about those functions state the modal's contract.
- `contact_form.dfy` (module `ContactForm`): the contact form's two-step
  submission.
- `field_errors.dfy` (module `FieldErrors`): a field's parent as a sequence
  of child nodes, `showFieldError`/`hideFieldError` as methods on it, the
  "at most one annotation" invariant, and the blur listener's decision.
- `portfolio_filter.dfy` (module `PortfolioFilter`): the filter click
  handler as two loops over the buttons' active flags and the items'
  styles.
- `wrappers.dfy` (module `Wrappers`): the `Option` type.

Points where the script does something other than a first reading suggests,
and which the model keeps as the code has them:

- The phone stripping step keeps every `+`, not only a leading one, so a
  `+` after the first kept character makes the number invalid.
- The email pattern needs the domain's `.` to have a character on each side
  (`a@.b` and `a@b.` are rejected), not merely a domain containing a `.`.
- An error annotation is appended at the end of the field's parent, and
  hiding removes the first annotation found in that parent. Fields that
  share a parent therefore share one annotation: at most one per parent,
  not one per field.
- After a submission the button's label is the one recorded when the send
  began, and `disabled` is set to false unconditionally.
- `form.reset()` on the booking form leaves the hidden `service-type` input
  at its last value: assigning `.value` to a hidden input rewrites its
  default (the HTML "default" value mode). Every other field returns to
  its default.

## Model

| member | source | states |
|---|---|---|
| Validation.ValidateEmail | main.js:279-282 | validateEmail itself: the email pattern run as a character automaton over the whole value; what it accepts is stated by ValidateEmailIffShape and EmailShapeIffWords |
| Validation.ValidateEmailIffShape | main.js:279-282 | validateEmail accepts a value iff it splits at an '@' into a non-empty local part and a domain, neither with whitespace or '@', the domain holding a '.' with a character on each side |
| Validation.EmailShapeIffWords | main.js:280 | the same set is: no whitespace anywhere, exactly one '@' not in first position, and after it a '.' with at least one character on each side |
| Validation.EmailExamples | main.js:279-282 | "a@b.co" is accepted; "a@b", "a b@c.com" and "" are rejected |
| Validation.StripPhone | main.js:286 | the stripped value is no longer than the input and holds only digits and '+' |
| Validation.StripPhoneKeepsCounts | main.js:286 | every digit and every '+' occurs in the stripped value exactly as often as in the input |
| Validation.StripPhoneConcat | main.js:286 | stripping a concatenation is concatenating the stripped parts, so the kept characters stay in their original order |
| Validation.StripPhoneKeepsKept | main.js:286 | a value made only of digits and '+' is left unchanged |
| Validation.StripPhoneIdempotent | main.js:286 | stripping twice is stripping once |
| Validation.ValidatePhone | main.js:284-287 | validatePhone itself: the phone pattern run as a character automaton over the stripped value; what it accepts is stated by ValidatePhoneIffShape |
| Validation.ValidatePhoneIffShape | main.js:284-287 | validatePhone accepts a value iff its stripped form is an optional '+', a digit 1-9, then 0 to 15 digits |
| Validation.ValidatePhoneOfKept | main.js:284-287 | on a value made only of digits and '+', validatePhone is that shape test of the value itself |
| Validation.ValidatePhoneNoLaterPlus | main.js:285-286 | a '+' anywhere after the first kept character makes validatePhone reject |
| Validation.PhoneExampleInternational | main.js:284-287 | "+15551234567" is accepted |
| Validation.PhoneExampleNational | main.js:284-287 | "5551234567" is accepted |
| Validation.PhoneExamplesRejected | main.js:284-287 | "0123", "abc" and "" are rejected |
| ServiceCatalog.Lookup | main.js:16-29 | a lookup succeeds exactly for wedding, corporate and commercial, and then yields a non-empty title and budget |
| ServiceCatalog.ServiceName | main.js:263-269 | the acknowledgment's service name is the table's entry for a known type and 'Photography Service' exactly for an unknown one |
| ServiceCatalog.CatalogTablesSameKeys | main.js:16-29 | serviceData and serviceNames cover the same three services |
| ServiceCatalog.CatalogTitleNamesService | main.js:17-27 | every modal title is "Book " followed by the service's display name from serviceNames |
| ServiceCatalog.LookupExamples | main.js:16-29 | wedding's title contains "Wedding", corporate's budget is '1000-2500', "unknown" is absent |
| Submission.BookingAcknowledgment | main.js:262-272 | the alert text of showBookingSuccess: the template at main.js:271 filled with the client's name, the service name (with its fallback) and the client's email |
| Submission.BookingAcknowledgmentMentions | main.js:262-272 | the booking acknowledgment contains the client's name, the service name and the client's email |
| Submission.BookingAcknowledgmentFallback | main.js:269-271 | for a service type outside serviceNames the acknowledgment names 'Photography Service' |
| Submission.ContactAcknowledgment | main.js:274-276 | the alert text of showContactSuccess: the template at main.js:275 filled with the sender's name and email |
| Submission.ContactAcknowledgmentMentions | main.js:274-276 | the contact acknowledgment contains the sender's name and email |
| Submission.JaneDoeExample | main.js:271 | a booking by "Jane Doe", "jane@x.com" is acknowledged with both strings |
| BookingModal.ResetBookingForm | main.js:165 | reset keeps the hidden service type and returns every other field to its default |
| BookingModal.OpenedView | main.js:139-160 | the modal state openBookingModal leaves: unchanged for an identifier outside the catalog, otherwise shown with scrolling locked, the catalog title, the service type and the catalog budget |
| BookingModal.ClosedView | main.js:162-166 | the modal state closeBookingModal leaves: hidden, scrolling restored, the title kept and the form reset |
| BookingModal.KeyDownView | main.js:180-184 | the modal state the keydown listener leaves: closed for Escape on a shown modal, otherwise unchanged |
| BookingModal.OpenUnknownIsNoOp | main.js:140-142 | opening with an identifier outside the catalog leaves the whole modal state unchanged |
| BookingModal.OpenKnownSeedsModal | main.js:143-153 | opening with a catalog identifier sets display 'block', overflow 'hidden', the catalog title, the service type and the catalog budget, and leaves the other fields as they were |
| BookingModal.OpenCorporateExample | main.js:143-150 | opening 'corporate' shows 'Book Corporate Headshots' with budget '1000-2500' |
| BookingModal.CloseRestores | main.js:162-166 | closing always yields display 'none', overflow 'auto' and every field but the hidden service type at its default |
| BookingModal.CloseIdempotent | main.js:162-166 | closing twice is closing once |
| BookingModal.KeyDownClosesOnlyOpenModal | main.js:180-184 | Escape closes the modal iff it is shown; any other key, or Escape on a hidden modal, changes nothing |
| BookingModal.BookingModalController.Open | main.js:139-160 | the open handler leaves exactly the state OpenedView prescribes and does not touch the submit button |
| BookingModal.BookingModalController.Close | main.js:162-166 | the close handler leaves exactly the state ClosedView prescribes and does not touch the submit button |
| BookingModal.BookingModalController.OnWindowClick | main.js:173-177 | a window click closes the modal iff its target is the modal backdrop |
| BookingModal.BookingModalController.OnKeyDown | main.js:180-184 | the keydown listener leaves the state KeyDownView prescribes |
| BookingModal.BookingModalController.BeginSubmission | main.js:202-222 | begin records the form's values and the button's label, shows 'Sending Request...' and disables the button, changing nothing else |
| BookingModal.BookingModalController.CompleteSubmission | main.js:225-232 | complete returns the booking acknowledgment of the recorded request, closes the modal, restores the recorded label and sets disabled to false |
| BookingModal.BookingModalController.Submit | main.js:202-233 | a whole booking submission acknowledges the client by name and email, ends with the modal closed and scrolling restored, and the button back to its label, enabled |
| ContactForm.ContactFormController.BeginSubmission | main.js:235-249 | begin records the form's values and the button's label, shows 'Sending Message...' and disables the button |
| ContactForm.ContactFormController.CompleteSubmission | main.js:252-259 | complete returns the contact acknowledgment of the recorded request, resets the form, restores the recorded label and sets disabled to false |
| ContactForm.ContactFormController.Submit | main.js:235-260 | a whole contact submission acknowledges the sender by name and email, resets the form and leaves the button back to its label, enabled |
| FieldErrors.FindFirstError | main.js:334 | the search reports the position of the first annotation among the children, or that there is none |
| FieldErrors.RemoveFirstError | main.js:333-338 | the children hideFieldError leaves: the first annotation, if any, removed and everything else kept |
| FieldErrors.RemoveFirstErrorAt | main.js:334-336 | removing the first annotation is deleting the child at the position the search found |
| FieldErrors.RemoveFirstErrorCount | main.js:333-338 | hiding removes exactly one annotation when there is one and none otherwise |
| FieldErrors.RemoveFirstErrorKeepsOthers | main.js:333-338 | hiding leaves every other child in place and in order |
| FieldErrors.HideLeavesNone | main.js:333-338 | from at most one annotation, hiding leaves none and exactly the other children |
| FieldErrors.ShownError | main.js:320-331 | the children showFieldError leaves: hideFieldError's result with one new annotation holding the message appended at the end |
| FieldErrors.ShowLeavesExactlyOne | main.js:320-331 | from at most one annotation, showing leaves exactly one, as the last child, holding the new message, after all other children in their order |
| FieldErrors.ShowTwiceLeavesOne | main.js:320-331 | two annotations shown in a row leave one, holding the second message |
| FieldErrors.FieldParent.HideFieldError | main.js:333-338 | the method removes the first annotation found under the parent and keeps "at most one" as "none" |
| FieldErrors.FieldParent.ShowFieldError | main.js:320-331 | the method hides, then appends the new annotation at the end, keeping at most one annotation |
| FieldErrors.ErrorMessage | main.js:297-311 | the message of each blur listener: "Please enter a valid email address" for email inputs, "Please enter a valid phone number" for telephone inputs |
| FieldErrors.BlurVerdict | main.js:295-301 | a blur flags a field iff its value is non-empty and invalid, with the field kind's message; an empty value is never flagged |
| FieldErrors.BlurVerdictInWords | main.js:294-315 | in plain words: an email field is flagged iff its value is non-empty and not a whitespace-free word with one '@' and a later inner '.'; a phone field iff its value is non-empty and its stripped form is not an optional '+', a digit 1-9 and at most 15 more digits |
| FieldErrors.InputField.OnBlur | main.js:294-301 | the listener sets the red border and shows the annotation when flagged, otherwise clears the border and hides the annotation; an empty value leaves no annotation |
| PortfolioFilter.Matches | main.js:99 | an item stays visible under a filter iff the filter is 'all' or equals the item's category |
| PortfolioFilter.SettledStyle | main.js:96-111 | an item's settled display is 'block' iff the filter is 'all' or equals its category, and 'none' otherwise |
| PortfolioFilter.ClickFilter | main.js:88-112 | after a click exactly the clicked button is active and every item has the display, opacity and scale this handler settles on for the clicked button's filter (opacity and transform can later be overwritten by the fade-in observer) |
| PortfolioFilter.ShowAllShowsEverything | main.js:99-100 | the 'all' filter shows every item |

## Left out

- Header scroll effect (main.js:71-83), smooth scrolling (main.js:42-68), the mobile menu (main.js:118-136) and the fade-in observer (main.js:341-365): styling and browser layout, driven by scrolling. The observer keeps watching every portfolio item and writes its opacity and transform whenever it enters the viewport, which overlaps the filter (see the next lines).
- The 100 ms focus of the first booking field after opening: a browser focus call, dropped.
- Timers are not modelled as time. Each submission is two explicit steps, and the filter's per-item timers are applied in the same loop iteration as the immediate assignments.
- PortfolioFilter.SettledStyle: its opacity and transform are what the filter handler writes, not necessarily the page's final values, since the fade-in observer can write opacity '1' and transform 'translateY(0)' afterwards; its display is the settled value.
- PortfolioFilter.ClickFilter: states the settled styles only when no earlier click's timers are still pending. A second click within 300 ms can let an earlier 300 ms hide timer run after the new click has shown the item; that interleaving is not modelled. Its opacity and transform values, and SettledStyle's opacity, are this handler's own writes only: the fade-in observer (main.js:348-351, 357-363) can write opacity '1' and transform 'translateY(0)' to a portfolio item after those writes, for instance when a click shows an item again and it re-enters the viewport, or when an item being hidden scrolls into view within the 300 ms. Only each item's display and the buttons' active flags are claimed as the page's settled state.
- `alert()`, `FormData`, `querySelector`, event registration and `DOMContentLoaded`: browser interfaces. The model keeps the strings and field records they carry. The acknowledgment is returned rather than displayed.
- FieldErrors: `querySelector` searches all descendants of the parent; the model searches its direct children only. Annotation styling (colour, font size, margin) is left out; only the class and the text are kept.
- A missing form field or element: `FormData.get` would give null and the script would fail on a missing element. The model assumes the page's markup provides every field and element.
- Property lookups through the JavaScript prototype chain (`serviceData['toString']`): the tables are maps over exactly their three keys.
- Two submissions of one form overlapping in time (the busy button prevents this by hand), and closing or reopening the modal while a booking send is pending: the continuation uses the values recorded when the send began, which the two-step model keeps, but no interleaving beyond that is stated.
- The whitespace class `\s` is written out by ECMAScript code point; JavaScript's UTF-16 code units are not modelled, which does not change what either pattern accepts.
