/** The template method of Main.java: `communicate` is final and always runs the three
    steps open, send, close in that order; a variant supplies only the step bodies.

    Console output is modelled as a trace of `println` arguments: every step appends
    the one string it prints. A payload holding a line terminator prints as several
    console lines, but it stays one element of the trace. */
module CommunicationTemplate {
  import opened Wrappers

  /** The variants that fill in the steps. The program defines one, email. */
  datatype Channel = Email

  /** The fixed part of the line a variant prints when it sends. */
  function SendPrefix(c: Channel): string {
    match c
    case Email => "Sending email: "
  }

  /** The `openChannel` step's line. */
  function OpenLine(c: Channel): string {
    match c
    case Email => "Opening email channel"
  }

  /** The `sendMessage` step's line: the variant's prefix followed by the payload. */
  function SendLine(c: Channel, message: string): string {
    match c
    case Email => SendPrefix(c) + message
  }

  /** The `closeChannel` step's line. */
  function CloseLine(c: Channel): string {
    match c
    case Email => "Closing email channel"
  }

  /** `communicate(message)`: appends exactly three printed strings to the trace; the earlier
      output is kept, the open and close lines do not depend on the payload, and the
      payload appears only in the middle line. */
  function Communicate(c: Channel, message: string, trace: seq<string>): (r: seq<string>)
    ensures |r| == |trace| + 3 && r[..|trace|] == trace
    ensures r[|trace|] == OpenLine(c) && r[|trace| + 2] == CloseLine(c)
    ensures |r[|trace| + 1]| >= |SendPrefix(c)|
    ensures r[|trace| + 1][..|SendPrefix(c)|] == SendPrefix(c)
    ensures r[|trace| + 1][|SendPrefix(c)|..] == message
  {
    trace + [OpenLine(c)] + [SendLine(c, message)] + [CloseLine(c)]
  }

  /** The inverse of one session: accepts exactly the open, send and close strings, in
      that order, and recovers the payload from the send string. */
  function ParseSession(c: Channel, lines: seq<string>): Option<string> {
    if && |lines| == 3
       && lines[0] == OpenLine(c)
       && lines[2] == CloseLine(c)
       && |SendPrefix(c)| <= |lines[1]|
       && lines[1][..|SendPrefix(c)|] == SendPrefix(c)
    then Some(lines[1][|SendPrefix(c)|..])
    else None
  }

  /** Every session parses back to its own payload. */
  lemma ParseSessionOfCommunicate(c: Channel, message: string)
    ensures ParseSession(c, Communicate(c, message, [])) == Some(message)
  {
  }

  /** Conversely, a three-element trace that parses to a payload is exactly the session
      `communicate` produces for that payload, so no other order or count of steps is a
      session. */
  lemma ParseSessionOnlyOfCommunicate(c: Channel, lines: seq<string>, message: string)
    requires ParseSession(c, lines) == Some(message)
    ensures lines == Communicate(c, message, [])
  {
    var p := SendPrefix(c);
    assert lines[1] == lines[1][..|p|] + lines[1][|p|..];
  }

  /** The three printed strings differ from one another for every payload, so each step shows up
      exactly once per call. */
  lemma StepsDistinct(c: Channel, message: string)
    ensures OpenLine(c) != SendLine(c, message)
    ensures SendLine(c, message) != CloseLine(c)
    ensures OpenLine(c) != CloseLine(c)
    ensures var r := Communicate(c, message, []);
            multiset(r)[OpenLine(c)] == 1 && multiset(r)[CloseLine(c)] == 1
            && multiset(r)[SendLine(c, message)] == 1
  {
    assert OpenLine(c)[0] == 'O' && SendLine(c, message)[0] == 'S' && CloseLine(c)[0] == 'C';
    var r := Communicate(c, message, []);
    assert r == [OpenLine(c), SendLine(c, message), CloseLine(c)];
  }

  /** The email variant's output for `communicate(m)`, line for line. */
  lemma EmailSession(message: string)
    ensures Communicate(Email, message, [])
            == ["Opening email channel", "Sending email: " + message, "Closing email channel"]
  {
  }

  /** The call `main` makes: `communicate("Important message")` on the email variant. */
  lemma ImportantMessageScenario()
    ensures Communicate(Email, "Important message", [])
            == ["Opening email channel", "Sending email: Important message", "Closing email channel"]
  {
    EmailSession("Important message");
    assert "Sending email: " + "Important message" == "Sending email: Important message";
  }
}
