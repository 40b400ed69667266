/**
 * The records the two submit handlers collect (handleBookingSubmission,
 * main.js:202-216; handleContactSubmission, main.js:235-243) and the
 * acknowledgment texts they show once the simulated send completes
 * (showBookingSuccess, main.js:262-272; showContactSuccess, main.js:274-276).
 */
module Submission {
  import opened ServiceCatalog

  /** The booking form's fields, as FormData reads them. */
  datatype BookingRequest = BookingRequest(
    serviceType: string,  // service-type (hidden)
    clientName: string,   // client-name
    clientEmail: string,  // client-email
    clientPhone: string,  // client-phone
    eventDate: string,    // event-date
    location: string,     // event-location
    details: string,      // project-details
    budget: string        // budget-range
  )

  /** The contact form's fields, as FormData reads them. */
  datatype ContactRequest = ContactRequest(
    name: string,     // contact-name
    email: string,    // contact-email
    subject: string,  // contact-subject
    message: string   // contact-message
  )

  /** The busy labels the submit buttons show while a send is simulated. */
  const BookingBusyText: string := "Sending Request..."
  const ContactBusyText: string := "Sending Message..."

  /** part occurs in text starting at index i. */
  predicate OccursAt(text: string, part: string, i: int)
  {
    0 <= i && i + |part| <= |text| && text[i..i + |part|] == part
  }

  /** part occurs somewhere in text. */
  predicate Mentions(text: string, part: string)
  {
    exists i | 0 <= i <= |text| - |part| :: OccursAt(text, part, i)
  }

  lemma MentionsMiddle(text: string, before: string, part: string, after: string)
    requires text == before + part + after
    ensures Mentions(text, part)
  {
    assert OccursAt(text, part, |before|);
  }

  /** The alert text of showBookingSuccess. */
  function BookingAcknowledgment(b: BookingRequest): (r: string)
  {
    "Thank you, " + b.clientName + "! Your " + ServiceName(b.serviceType) +
    " booking request has been sent. I'll contact you within 24 hours at " + b.clientEmail +
    " to discuss your project details."
  }

  /** The alert text of showContactSuccess. */
  function ContactAcknowledgment(c: ContactRequest): (r: string)
  {
    "Thank you, " + c.name + "! Your message has been sent successfully. I'll get back to you within 24 hours at " +
    c.email + "."
  }

  /** Each of the three slots of a three-slot message occurs in it. */
  lemma MentionsSlots(a: string, x: string, b: string, y: string, c: string, z: string, d: string)
    ensures Mentions(a + x + b + y + c + z + d, x)
    ensures Mentions(a + x + b + y + c + z + d, y)
    ensures Mentions(a + x + b + y + c + z + d, z)
  {
    var t := a + x + b + y + c + z + d;
    MentionsMiddle(t, a, x, b + y + c + z + d);
    MentionsMiddle(t, a + x + b, y, c + z + d);
    MentionsMiddle(t, a + x + b + y + c, z, d);
  }

  /** Each of the two slots of a two-slot message occurs in it. */
  lemma MentionsTwoSlots(a: string, x: string, b: string, y: string, c: string)
    ensures Mentions(a + x + b + y + c, x)
    ensures Mentions(a + x + b + y + c, y)
  {
    var t := a + x + b + y + c;
    MentionsMiddle(t, a, x, b + y + c);
    MentionsMiddle(t, a + x + b, y, c);
  }

  /** The booking acknowledgment names the client, the service and the address to reply to. */
  lemma BookingAcknowledgmentMentions(b: BookingRequest)
    ensures Mentions(BookingAcknowledgment(b), b.clientName)
    ensures Mentions(BookingAcknowledgment(b), b.clientEmail)
    ensures Mentions(BookingAcknowledgment(b), ServiceName(b.serviceType))
  {
    MentionsSlots("Thank you, ", b.clientName, "! Your ", ServiceName(b.serviceType),
                  " booking request has been sent. I'll contact you within 24 hours at ", b.clientEmail,
                  " to discuss your project details.");
  }

  /** An unknown service type is acknowledged as 'Photography Service'. */
  lemma BookingAcknowledgmentFallback(b: BookingRequest)
    requires b.serviceType !in ServiceNames
    ensures Mentions(BookingAcknowledgment(b), FallbackServiceName)
  {
    BookingAcknowledgmentMentions(b);
  }

  /** The contact acknowledgment names the sender and the address to reply to. */
  lemma ContactAcknowledgmentMentions(c: ContactRequest)
    ensures Mentions(ContactAcknowledgment(c), c.name)
    ensures Mentions(ContactAcknowledgment(c), c.email)
  {
    MentionsTwoSlots("Thank you, ", c.name,
                     "! Your message has been sent successfully. I'll get back to you within 24 hours at ", c.email,
                     ".");
  }

  lemma JaneDoeExample(b: BookingRequest)
    requires b.clientName == "Jane Doe" && b.clientEmail == "jane@x.com"
    ensures Mentions(BookingAcknowledgment(b), "Jane Doe")
    ensures Mentions(BookingAcknowledgment(b), "jane@x.com")
  {
    BookingAcknowledgmentMentions(b);
  }
}
