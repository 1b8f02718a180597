/** The dock-assignment text message (src/app/api/send-sms/route.ts): the
    required-field guard of `POST` and the message template with its
    defaults. The request body is taken as already parsed, with "" for a
    property that is absent or falsy; the Twilio call is a parameter
    (what it returns or throws). */
module SendSms {
  import opened Text
  import opened Optional

  datatype SmsRequest = SmsRequest(
    phoneNumber: string,
    dockNumber: string,
    driverName: string,
    referenceNumber: string,
    appointmentTime: string)

  /** `x || fallback`. */
  function OrDefault(x: string, fallback: string): (r: string)
    ensures x != "" ==> r == x
    ensures x == "" ==> r == fallback
  {
    if x != "" then x else fallback
  }

  /** Where the driver is sent: the ramp, or a numbered dock. */
  function DockLabel(dockNumber: string): (r: string)
    ensures dockNumber == "Ramp" <==> r == "the Ramp"
    ensures dockNumber != "Ramp" ==> r == "Dock " + dockNumber
  {
    if dockNumber == "Ramp" then "the Ramp"
    else
      assert ("Dock " + dockNumber)[0] != "the Ramp"[0];
      "Dock " + dockNumber
  }

  /** The lines of the template literal, in order: the greeting, a blank
      line, the dock, a blank line, the reference, the appointment time, a
      blank line and the closing. */
  function MessageLines(req: SmsRequest): (lines: seq<string>)
    ensures |lines| == 8
  {
    [ "Hello " + OrDefault(req.driverName, "Driver") + "!",
      "",
      "You've been assigned to " + DockLabel(req.dockNumber) + ".",
      "",
      "Reference #: " + OrDefault(req.referenceNumber, "N/A"),
      "Appointment: " + OrDefault(req.appointmentTime, "N/A"),
      "",
      "Please proceed to your assigned dock." ]
  }

  /** The template literal before `.trim()`: it opens with a line break
      after the back-quote and closes with a line break and the four spaces
      of indentation before the closing back-quote. */
  function Template(req: SmsRequest): string {
    "\n" + Join(MessageLines(req), "\n") + "\n    "
  }

  /** The message sent: trimming removes exactly the opening line break and
      the closing indentation, leaving the lines joined by line breaks with
      no white space at either end. */
  function Message(req: SmsRequest): (r: string)
    ensures r == Join(MessageLines(req), "\n")
    ensures IsTrimmed(r)
    ensures |r| < |Template(req)|
  {
    var lines := MessageLines(req);
    JoinStart(lines, "\n");
    JoinEnd(lines, "\n");
    TrimFramed("\n", Join(lines, "\n"), "\n    ");
    Trim(Template(req))
  }

  /** With no line break in the four values, splitting the message at line
      breaks gives back its eight lines, so the dock line names the ramp or
      the dock and the reference and appointment lines carry their values
      or "N/A". */
  lemma MessageSplitsIntoLines(req: SmsRequest)
    requires '\n' !in req.driverName && '\n' !in req.dockNumber
    requires '\n' !in req.referenceNumber && '\n' !in req.appointmentTime
    ensures Split(Message(req), {'\n'}) == MessageLines(req)
    ensures Split(Message(req), {'\n'})[2] == "You've been assigned to " + DockLabel(req.dockNumber) + "."
  {
    var lines := MessageLines(req);
    forall k | 0 <= k < |lines|
      ensures forall i | 0 <= i < |lines[k]| :: lines[k][i] != '\n'
    {
      NoLineBreakIn(k, req);
    }
    SplitJoin(lines, '\n');
  }

  lemma NoLineBreakIn(k: nat, req: SmsRequest)
    requires k < 8
    requires '\n' !in req.driverName && '\n' !in req.dockNumber
    requires '\n' !in req.referenceNumber && '\n' !in req.appointmentTime
    ensures '\n' !in MessageLines(req)[k]
  {
    var line := MessageLines(req)[k];
    if k == 0 {
      assert line == "Hello " + OrDefault(req.driverName, "Driver") + "!";
    } else if k == 2 {
      assert '\n' !in DockLabel(req.dockNumber);
      assert line == "You've been assigned to " + DockLabel(req.dockNumber) + ".";
    } else if k == 4 {
      assert line == "Reference #: " + OrDefault(req.referenceNumber, "N/A");
    } else if k == 5 {
      assert line == "Appointment: " + OrDefault(req.appointmentTime, "N/A");
    } else if k == 7 {
      assert line == "Please proceed to your assigned dock.";
    }
  }

  // ---- POST ----

  /** The text the route hands to Twilio. */
  datatype Sms = Sms(body: string, to: string)

  /** What `client.messages.create` does: returns a message id, or throws. */
  datatype SendResult = Sent(sid: string) | SendFailed(message: string)

  datatype Response = Response(status: nat, success: bool, messageId: string, error: string)

  const MissingRequired := "Missing required fields"

  /** `POST`: the response, and the text message sent if the guard lets the
      request through. */
  function Post(req: SmsRequest, send: SendResult): (r: (Response, Option<Sms>))
    ensures req.phoneNumber == "" || req.dockNumber == "" <==> r.0.status == 400
    ensures r.0.status == 400 ==> r.1.None? && r.0.error == MissingRequired && !r.0.success
    ensures r.0.status != 400 ==> r.1 == Some(Sms(Message(req), req.phoneNumber))
    ensures r.0.success <==> r.0.status == 200
    ensures r.0.success ==> send.Sent? && r.0.messageId == send.sid
    ensures r.0.status != 400 ==> (r.0.success <==> send.Sent?)
    ensures r.0.status != 400 && send.SendFailed? ==> r.0.status == 500 && r.0.error == send.message
  {
    if req.phoneNumber == "" || req.dockNumber == "" then
      (Response(400, false, "", MissingRequired), None)
    else
      var sms := Sms(Message(req), req.phoneNumber);
      match send
      case Sent(sid) => (Response(200, true, sid, ""), Some(sms))
      case SendFailed(message) => (Response(500, false, "", message), Some(sms))
  }
}
