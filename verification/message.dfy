/**
 * An e-mail message (models/message.py): an immutable record. The creation
 * time is read from the clock in the original; here it is a parameter.
 */
module Messages {

  /** Creation time of a message, supplied by the caller. */
  type Timestamp = int

  /** Every field is fixed at construction; there are only read accessors. */
  datatype Message = Message(
    sender: string,
    receiver: string,
    subject: string,
    body: string,
    date: Timestamp,
    urgent: bool)

  /** Builds a message; `urgent` is false unless the caller says otherwise. */
  function NewMessage(sender: string, receiver: string, subject: string, body: string,
                      date: Timestamp, urgent: bool := false): (m: Message)
    ensures m.sender == sender && m.receiver == receiver
    ensures m.subject == subject && m.body == body
    ensures m.date == date && m.urgent == urgent
  {
    Message(sender, receiver, subject, body, date, urgent)
  }

  /** The tag that follows the subject of an urgent message in its text form. */
  const UrgentTag: string := " (URGENTE)"

  /**
   * The one-line text form of a message. `stamp` is the creation time already
   * formatted as text (the date formatting itself is not modelled).
   */
  function Render(m: Message, stamp: string): (r: string)
    ensures |r| >= |"Asunto: "| + |m.subject| + |UrgentTag|
    ensures r[..|"Asunto: "|] == "Asunto: "
    ensures r[|"Asunto: "|..|"Asunto: "| + |m.subject|] == m.subject
    ensures var k := |"Asunto: "| + |m.subject|;
            r[k..k + |UrgentTag|] == UrgentTag <==> m.urgent
  {
    var head := "Asunto: " + m.subject;
    var tail := " | De: " + m.sender + " | Para: " + m.receiver + " | Fecha: " + stamp;
    var r := head + (if m.urgent then UrgentTag else "") + tail;
    assert r[|head| + 1] == if m.urgent then UrgentTag[1] else tail[1];
    r
  }

  /** The subjects of `ms`, one per message, in the same order. */
  function Subjects(ms: seq<Message>): (r: seq<string>)
    ensures |r| == |ms|
    ensures forall i :: 0 <= i < |ms| ==> r[i] == ms[i].subject
  {
    if ms == [] then [] else [ms[0].subject] + Subjects(ms[1..])
  }
}
