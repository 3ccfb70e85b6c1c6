/**
 * The contact form handler: field validation, the mail it composes for the
 * administrator, and the verify-then-send sequence on the mail transport.
 * The sender and recipient addresses come from the environment
 * (EMAIL_USER, ADMIN_EMAIL) and are parameters here.
 */
module Contact {
  import opened Wrappers
  import opened Text
  import opened Http

  /** The four fields of the form; "" stands for absent or empty. */
  datatype ContactRequest = ContactRequest(name: string, email: string, phone: string, message: string)

  datatype MailOptions = MailOptions(from: string, to: string, replyTo: string, subject: string, html: string)

  /** `!name || !email || !phone || !message` fails. */
  predicate Complete(req: ContactRequest) {
    req.name != "" && req.email != "" && req.phone != "" && req.message != ""
  }

  const SubjectPrefix: string := "New Contact Form Submission from "

  const HeadText: string := "\n          <h2>New Contact Form Submission</h2>\n          <p><strong>From:</strong> "
  const PhoneText: string := ")</p>\n          <p><strong>Phone:</strong> "
  const MessageText: string := "</p>\n          <h3>Message:</h3>\n          <p>"
  const NoteText: string := "</p>\n          <br/>\n          <p><small>Note: You can reply directly to this email to contact "
  const TailText: string := "</small></p>\n        "

  /** The HTML body of the mail, with the template's line breaks and indentation. */
  function MailBody(req: ContactRequest): string {
    HeadText + (req.name + (" (" + (req.email + (PhoneText + (req.phone + (MessageText
      + (req.message + (NoteText + (req.name + TailText)))))))))
  }

  /** The mail sent to the administrator; replies go to the submitter. */
  function ComposeMail(req: ContactRequest, from: string, to: string): (m: MailOptions)
    ensures m.from == from && m.to == to && m.replyTo == req.email
    ensures m.subject == SubjectPrefix + req.name
    ensures Contains(m.html, req.name) && Contains(m.html, req.email)
    ensures Contains(m.html, req.phone) && Contains(m.html, req.message)
  {
    MailBodyMentionsEveryField(req);
    MailOptions(from, to, req.email, SubjectPrefix + req.name, MailBody(req))
  }

  /** The body carries every field of the form: name, email, phone and message. */
  lemma MailBodyMentionsEveryField(req: ContactRequest)
    ensures Contains(MailBody(req), req.name)
    ensures Contains(MailBody(req), req.email)
    ensures Contains(MailBody(req), req.phone)
    ensures Contains(MailBody(req), req.message)
  {
    var t8 := NoteText + (req.name + TailText);
    var t6 := MessageText + (req.message + t8);
    var t4 := PhoneText + (req.phone + t6);
    var t2 := " (" + (req.email + t4);
    var t1 := req.name + t2;
    assert MailBody(req) == HeadText + t1;
    // the message, inside t6
    ContainsStart(req.message, t8);
    ContainsLater(MessageText, req.message + t8, req.message);
    // the phone, and the message, inside t4
    ContainsStart(req.phone, t6);
    ContainsLater(req.phone, t6, req.message);
    ContainsLater(PhoneText, req.phone + t6, req.phone);
    ContainsLater(PhoneText, req.phone + t6, req.message);
    // the email, phone and message inside t2
    ContainsStart(req.email, t4);
    ContainsLater(req.email, t4, req.phone);
    ContainsLater(req.email, t4, req.message);
    ContainsLater(" (", req.email + t4, req.email);
    ContainsLater(" (", req.email + t4, req.phone);
    ContainsLater(" (", req.email + t4, req.message);
    // everything inside t1, then the whole body
    ContainsStart(req.name, t2);
    ContainsLater(req.name, t2, req.email);
    ContainsLater(req.name, t2, req.phone);
    ContainsLater(req.name, t2, req.message);
    ContainsLater(HeadText, t1, req.name);
    ContainsLater(HeadText, t1, req.email);
    ContainsLater(HeadText, t1, req.phone);
    ContainsLater(HeadText, t1, req.message);
  }

  /** The mail transport: whether `verify` and `sendMail` succeed, and the mails sent so far. */
  class Transport {
    var verifies: bool
    var delivers: bool
    var sent: seq<MailOptions>

    constructor(verifies: bool, delivers: bool)
      ensures this.verifies == verifies && this.delivers == delivers && sent == []
    {
      this.verifies, this.delivers, sent := verifies, delivers, [];
    }
  }

  /**
   * `POST /api/contact` (None for a body that is not JSON): incomplete
   * fields are 400 before the transport is touched; the mail is sent only
   * after `verify` succeeds, and only a successful send is 200.
   */
  method Submit(transport: Transport, body: Option<ContactRequest>, from: string, to: string) returns (r: Reply)
    modifies transport
    ensures transport.verifies == old(transport.verifies) && transport.delivers == old(transport.delivers)
    ensures body.None? ==> r == Error(500, "Failed to process contact form") && transport.sent == old(transport.sent)
    ensures body.Some? && !Complete(body.value) ==> r == Error(400, "All fields are required") && transport.sent == old(transport.sent)
    ensures body.Some? && Complete(body.value) && !(transport.verifies && transport.delivers) ==>
              r == Error(500, "Failed to send email. Please try again later.") && transport.sent == old(transport.sent)
    ensures body.Some? && Complete(body.value) && transport.verifies && transport.delivers ==>
              r == Message(200, "Message sent successfully")
              && transport.sent == old(transport.sent) + [ComposeMail(body.value, from, to)]
  {
    if body.None? {
      return Error(500, "Failed to process contact form");
    }
    var req := body.value;
    if req.name == "" || req.email == "" || req.phone == "" || req.message == "" {
      return Error(400, "All fields are required");
    }
    if !transport.verifies {
      return Error(500, "Failed to send email. Please try again later.");
    }
    var mail := ComposeMail(req, from, to);
    if !transport.delivers {
      return Error(500, "Failed to send email. Please try again later.");
    }
    transport.sent := transport.sent + [mail];
    r := Message(200, "Message sent successfully");
  }
}
