/**
  * One delivery attempt against one host: the body of the `try` block in
  * `EmailSender.sendEmail`. After the connection is opened the client reads the
  * greeting, then sends HELO, MAIL FROM, RCPT TO, DATA and the message, each
  * only after the previous reply matched (sections 4.1.1.1 to 4.1.1.4 of
  * RFC 5321), and finally QUIT (section 4.1.1.10), whose reply code is ignored.
  */
module SmtpSession {
  import opened Wrappers
  import opened SmtpReply
  import opened SmtpData
  import opened JavaStrings

  /** What the client writes on the connection, in order. */
  datatype Outgoing =
    | CommandLine(text: string)   // writer.println(text): the text and the platform line separator
    | Data(bytes: seq<byte>)      // message.writeTo(os) and then the end-of-data bytes

  /** The jakarta.mail message, reduced to what the session does with it. */
  datatype MimeMessage = MimeMessage(
    fromReadable: bool,   // getFrom() returns rather than throwing MessagingException
    serializable: bool,   // writeTo(os) does not throw MessagingException
    bytes: seq<byte>)     // what writeTo(os) writes

  /** One host's side of the conversation. */
  datatype HostScript = HostScript(
    connects: bool,              // new Socket(host, port) and setSoTimeout succeed
    replies: seq<ServerEvent>,   // what successive readLine() calls yield
    transferSucceeds: bool)      // writing the message and the end-of-data bytes raises no IOException

  /** How an attempt against one host ends. */
  datatype AttemptOutcome =
    | Delivered         // the message was accepted: sendEmail returns true
    | Refused           // a reply did not match: sendEmail returns false at once
    | TransportFailed   // IOException or MessagingException: caught, the next host is tried
    | Crashed           // StringIndexOutOfBoundsException: escapes sendEmail

  /** What the client does before reading the reply of a step. */
  datatype Write =
    | NoWrite                      // just connected: the greeting is read
    | Command(text: string)        // println(text)
    | EnvelopeSender(text: string) // message.getFrom() is called, then println(text)
    | MessageData                  // message.writeTo(os), then CR LF . CR LF

  datatype Step = Step(write: Write, code: string)

  /** The fixed command sequence and the reply code each step requires. */
  function Protocol(helo: string, mailFrom: string, recipient: string): seq<Step> {
    [ Step(NoWrite, "220"),
      Step(Command("HELO " + helo), "250"),
      Step(EnvelopeSender("MAIL FROM:<" + mailFrom + ">"), "250"),
      Step(Command("RCPT TO:<" + recipient + ">"), "250"),
      Step(Command("DATA"), "354"),
      Step(MessageData, "250") ]
  }

  /** Everything a successful attempt writes, in order. */
  function Dialogue(helo: string, mailFrom: string, recipient: string, message: MimeMessage): seq<Outgoing> {
    [ CommandLine("HELO " + helo),
      CommandLine("MAIL FROM:<" + mailFrom + ">"),
      CommandLine("RCPT TO:<" + recipient + ">"),
      CommandLine("DATA"),
      Data(message.bytes + EndOfData),
      CommandLine("QUIT") ]
  }

  /**
    * An attempt in progress: what has been written, the outcome of every reply
    * read, the events not yet read, and the outcome once the attempt has ended.
    */
  datatype Exchange = Exchange(
    sent: seq<Outgoing>,
    replies: seq<ReplyOutcome>,
    rest: seq<ServerEvent>,
    end: Option<AttemptOutcome>)

  /** What a write puts on the connection, or None when it throws. */
  function Perform(w: Write, message: MimeMessage, script: HostScript): Option<seq<Outgoing>> {
    match w
    case NoWrite => Some([])
    case Command(text) => Some([CommandLine(text)])
    case EnvelopeSender(text) => if message.fromReadable then Some([CommandLine(text)]) else None
    case MessageData =>
      if message.serializable && script.transferSucceeds then Some([Data(message.bytes + EndOfData)]) else None
  }

  /** How an attempt ends at a reply that was not matched. */
  function Abort(r: ReplyOutcome): AttemptOutcome
    requires r != Matched
  {
    match r
    case Mismatched => Refused
    case ReadFailed => TransportFailed
    case IndexOutOfBounds => Crashed
  }

  /** One step: the write, then `expectCode` for the step's code. */
  function StepOnce(ex: Exchange, s: Step, message: MimeMessage, script: HostScript): Exchange {
    match Perform(s.write, message, script)
    case None => ex.(end := Some(TransportFailed))
    case Some(out) =>
      var r := ExpectReply(ex.rest, s.code);
      Exchange(ex.sent + out, ex.replies + [r.outcome], r.rest,
               if r.outcome == Matched then None else Some(Abort(r.outcome)))
  }

  /** The steps in order until one of them ends the attempt. */
  function Run(steps: seq<Step>, ex: Exchange, message: MimeMessage, script: HostScript): Exchange
    decreases |steps|
  {
    if steps == [] || ex.end.Some? then ex
    else Run(steps[1..], StepOnce(ex, steps[0], message, script), message, script)
  }

  /**
    * QUIT, once the message was accepted: a reply that does not match, or end
    * of stream, leaves the attempt delivered; an IOException is still caught by
    * the host loop, and a short line still throws.
    */
  function Quit(ex: Exchange): Exchange {
    var r := ExpectReply(ex.rest, "221");
    Exchange(ex.sent + [CommandLine("QUIT")], ex.replies + [r.outcome], r.rest,
             Some(if r.outcome == ReadFailed || r.outcome == IndexOutOfBounds then Abort(r.outcome) else Delivered))
  }

  /** The whole attempt against one host. */
  function Session(helo: string, mailFrom: string, recipient: string, message: MimeMessage, script: HostScript): Exchange {
    if !script.connects then Exchange([], [], script.replies, Some(TransportFailed))
    else
      Finish(Run(Protocol(helo, mailFrom, recipient), Exchange([], [], script.replies, None), message, script))
  }

  /** Steps `k..` of a run that has not ended: take one step. */
  lemma RunStep(steps: seq<Step>, k: nat, ex: Exchange, message: MimeMessage, script: HostScript)
    requires k < |steps| && ex.end.None?
    ensures Run(steps[k..], ex, message, script)
         == Run(steps[k + 1..], StepOnce(ex, steps[k], message, script), message, script)
  {
    assert steps[k..][0] == steps[k] && steps[k..][1..] == steps[k + 1..];
  }

  /** What `Session` makes of the state reached after the protocol steps. */
  function Finish(ex: Exchange): Exchange {
    if ex.end.None? then Quit(ex) else ex
  }

  /** `writer.println(text)` followed by `expectCode(reader, code)`: one command step. */
  method SendCommand(ghost ex: Exchange, ghost s: Step, ghost message: MimeMessage, ghost script: HostScript,
                     text: string, code: string, events: seq<ServerEvent>, sentBefore: seq<Outgoing>)
    returns (reply: ReplyOutcome, rest: seq<ServerEvent>, sent: seq<Outgoing>)
    requires s == Step(Command(text), code) && ex.rest == events && ex.sent == sentBefore
    ensures var next := StepOnce(ex, s, message, script);
      && next.rest == rest && next.sent == sent && next.replies == ex.replies + [reply]
      && next.end == (if reply == Matched then None else Some(Abort(reply)))
  {
    sent := sentBefore + [CommandLine(text)];
    reply, rest := ExpectCode(events, code);
  }

  /**
    * The attempt as the source writes it: straight-line code with an early
    * return after every reply that does not match. The part from MAIL FROM
    * on is `SendEnvelope`.
    */
  method Attempt(helo: string, mailFrom: string, recipient: string, message: MimeMessage, script: HostScript)
    returns (outcome: AttemptOutcome, sent: seq<Outgoing>)
    ensures var ex := Session(helo, mailFrom, recipient, message, script);
      ex.end == Some(outcome) && ex.sent == sent
  {
    if !script.connects {
      return TransportFailed, [];
    }
    ghost var steps := Protocol(helo, mailFrom, recipient);
    ghost var ex := Exchange([], [], script.replies, None);
    ghost var run := Run(steps, ex, message, script);
    assert Session(helo, mailFrom, recipient, message, script) == Finish(run);
    var events := script.replies;
    var reply: ReplyOutcome;
    sent := [];

    reply, events := ExpectCode(events, "220");
    RunStep(steps, 0, ex, message, script);
    ex := StepOnce(ex, steps[0], message, script);
    assert run == Run(steps[1..], ex, message, script) && ex.rest == events && ex.sent == sent;
    if reply != Matched {
      return Abort(reply), sent;
    }

    reply, events, sent := SendCommand(ex, steps[1], message, script, "HELO " + helo, "250", events, sent);
    RunStep(steps, 1, ex, message, script);
    ex := StepOnce(ex, steps[1], message, script);
    assert run == Run(steps[2..], ex, message, script) && ex.rest == events && ex.sent == sent;
    if reply != Matched {
      return Abort(reply), sent;
    }

    outcome, sent := SendEnvelope(steps, ex, events, sent, message, script, mailFrom, recipient);
  }

  /** MAIL FROM and RCPT TO, then `TransmitMessage`: the middle steps of `Attempt`. */
  method SendEnvelope(ghost steps: seq<Step>, ghost ex: Exchange, events: seq<ServerEvent>, sentBefore: seq<Outgoing>,
                      message: MimeMessage, script: HostScript, mailFrom: string, recipient: string)
    returns (outcome: AttemptOutcome, sent: seq<Outgoing>)
    requires |steps| == 6 && steps[2] == Step(EnvelopeSender("MAIL FROM:<" + mailFrom + ">"), "250")
    requires steps[3] == Step(Command("RCPT TO:<" + recipient + ">"), "250")
    requires steps[4] == Step(Command("DATA"), "354") && steps[5] == Step(MessageData, "250")
    requires ex.end.None? && ex.rest == events && ex.sent == sentBefore
    ensures var fin := Finish(Run(steps[2..], ex, message, script));
      fin.end == Some(outcome) && fin.sent == sent
  {
    ghost var run := Run(steps[2..], ex, message, script);
    var events := events;
    var reply: ReplyOutcome;
    sent := sentBefore;
    RunStep(steps, 2, ex, message, script);
    if !message.fromReadable {
      assert run == StepOnce(ex, steps[2], message, script);
      return TransportFailed, sent;
    }
    sent := sent + [CommandLine("MAIL FROM:<" + mailFrom + ">")];
    reply, events := ExpectCode(events, "250");
    ghost var ex := StepOnce(ex, steps[2], message, script);
    assert run == Run(steps[3..], ex, message, script) && ex.rest == events && ex.sent == sent;
    if reply != Matched {
      return Abort(reply), sent;
    }

    reply, events, sent := SendCommand(ex, steps[3], message, script, "RCPT TO:<" + recipient + ">", "250", events, sent);
    RunStep(steps, 3, ex, message, script);
    ex := StepOnce(ex, steps[3], message, script);
    assert run == Run(steps[4..], ex, message, script) && ex.rest == events && ex.sent == sent;
    if reply != Matched {
      return Abort(reply), sent;
    }

    outcome, sent := TransmitMessage(steps, ex, events, sent, message, script);
  }

  /** DATA, the message and its end marker, then QUIT: the last steps of `Attempt`. */
  method TransmitMessage(ghost steps: seq<Step>, ghost ex: Exchange, events: seq<ServerEvent>, sentBefore: seq<Outgoing>,
                         message: MimeMessage, script: HostScript)
    returns (outcome: AttemptOutcome, sent: seq<Outgoing>)
    requires |steps| == 6 && steps[4] == Step(Command("DATA"), "354") && steps[5] == Step(MessageData, "250")
    requires ex.end.None? && ex.rest == events && ex.sent == sentBefore
    ensures var fin := Finish(Run(steps[4..], ex, message, script));
      fin.end == Some(outcome) && fin.sent == sent
  {
    ghost var run := Run(steps[4..], ex, message, script);
    var events := events;
    var reply: ReplyOutcome;
    reply, events, sent := SendCommand(ex, steps[4], message, script, "DATA", "354", events, sentBefore);
    RunStep(steps, 4, ex, message, script);
    ghost var ex := StepOnce(ex, steps[4], message, script);
    assert run == Run(steps[5..], ex, message, script) && ex.rest == events && ex.sent == sent;
    if reply != Matched {
      return Abort(reply), sent;
    }

    RunStep(steps, 5, ex, message, script);
    if !message.serializable || !script.transferSucceeds {
      assert run == StepOnce(ex, steps[5], message, script);
      return TransportFailed, sent;
    }
    sent := sent + [Data(message.bytes + EndOfData)];
    reply, events := ExpectCode(events, "250");
    ex := StepOnce(ex, steps[5], message, script);
    assert run == Run(steps[6..], ex, message, script) && ex.rest == events && ex.sent == sent;
    if reply != Matched {
      return Abort(reply), sent;
    }

    assert run == ex;
    sent := sent + [CommandLine("QUIT")];
    reply, events := ExpectCode(events, "221");
    outcome := if reply == ReadFailed || reply == IndexOutOfBounds then Abort(reply) else Delivered;
  }

  /** How many items the first `k` protocol steps write when all of them go through. */
  function Written(k: nat): nat {
    if k == 0 then 0 else k - 1
  }

  /** The state before step `k` of a run in which every step so far went through. */
  predicate OnTrack(ex: Exchange, k: nat, d: seq<Outgoing>) {
    && k <= 6 && |d| == 6
    && ex.end.None?
    && ex.sent == d[..Written(k)]
    && |ex.replies| == k
    && (forall i | 0 <= i < k :: ex.replies[i] == Matched)
  }

  /**
    * What holds of any state a run reaches: the writes are a prefix of the
    * dialogue without QUIT, the reply read before each write matched, every
    * reply but the last matched, and an attempt ends as Refused exactly at a
    * mismatched reply.
    */
  predicate Reached(ex: Exchange, d: seq<Outgoing>) {
    && |d| == 6
    && ex.sent <= d[..5]
    && |ex.sent| <= |ex.replies| <= |ex.sent| + 1
    && (forall i | 0 <= i < |ex.replies| - 1 :: ex.replies[i] == Matched)
    && (forall j | 0 <= j < |ex.sent| :: ex.replies[j] == Matched)
    && (ex.end.None? ==> |ex.replies| == 6 && ex.sent == d[..5] && ex.replies[5] == Matched)
    && (ex.end == Some(Refused) ==> |ex.replies| >= 1 && ex.replies[|ex.replies| - 1] == Mismatched)
    && (ex.end == Some(Crashed) ==> |ex.replies| >= 1 && ex.replies[|ex.replies| - 1] == IndexOutOfBounds)
    && ex.end != Some(Delivered)
  }

  /** One step from a state on track, writing `d[k - 1]` (nothing for the greeting) when it goes through. */
  lemma StepFromTrack(ex: Exchange, s: Step, message: MimeMessage, script: HostScript, k: nat, d: seq<Outgoing>)
    requires OnTrack(ex, k, d) && k < 6
    requires var p := Perform(s.write, message, script);
      p.None? || p.value == (if k == 0 then [] else [d[k - 1]])
    ensures var next := StepOnce(ex, s, message, script);
      && (next.end.None? ==> OnTrack(next, k + 1, d))
      && (next.end.Some? ==> Reached(next, d))
  {
    var next := StepOnce(ex, s, message, script);
    assert d[..Written(k + 1)] == d[..Written(k)] + (if k == 0 then [] else [d[k - 1]]);
    assert d[..Written(k)] <= d[..5];
    assert d[..Written(k + 1)] <= d[..5];
  }

  /** Step `k` of the protocol writes the dialogue's item `k - 1` (the greeting writes nothing), or throws. */
  lemma ProtocolWrites(helo: string, mailFrom: string, recipient: string, message: MimeMessage, script: HostScript, k: nat)
    requires k < 6
    ensures var p := Perform(Protocol(helo, mailFrom, recipient)[k].write, message, script);
      p.None? || p.value == (if k == 0 then [] else [Dialogue(helo, mailFrom, recipient, message)[k - 1]])
  {
  }

  /** A run stays on the dialogue from any step it reaches on track. */
  lemma {:induction false} RunFromTrack(helo: string, mailFrom: string, recipient: string, message: MimeMessage,
                                        script: HostScript, k: nat, ex: Exchange)
    requires OnTrack(ex, k, Dialogue(helo, mailFrom, recipient, message))
    ensures Reached(Run(Protocol(helo, mailFrom, recipient)[k..], ex, message, script),
                    Dialogue(helo, mailFrom, recipient, message))
    decreases 6 - k
  {
    var steps := Protocol(helo, mailFrom, recipient);
    var d := Dialogue(helo, mailFrom, recipient, message);
    if k == 6 {
      assert steps[k..] == [];
    } else {
      RunStep(steps, k, ex, message, script);
      var next := StepOnce(ex, steps[k], message, script);
      ProtocolWrites(helo, mailFrom, recipient, message, script, k);
      StepFromTrack(ex, steps[k], message, script, k, d);
      if next.end.None? {
        RunFromTrack(helo, mailFrom, recipient, message, script, k + 1, next);
      } else {
        assert Run(steps[k + 1..], next, message, script) == next;
      }
    }
  }

  /** The protocol run from the connection on. */
  lemma RunFromStart(helo: string, mailFrom: string, recipient: string, message: MimeMessage, script: HostScript)
    ensures Reached(Run(Protocol(helo, mailFrom, recipient), Exchange([], [], script.replies, None), message, script),
                    Dialogue(helo, mailFrom, recipient, message))
  {
    var start := Exchange([], [], script.replies, None);
    assert OnTrack(start, 0, Dialogue(helo, mailFrom, recipient, message));
    RunFromTrack(helo, mailFrom, recipient, message, script, 0, start);
    assert Protocol(helo, mailFrom, recipient)[0..] == Protocol(helo, mailFrom, recipient);
  }

  /**
    * Every attempt ends, and it writes a prefix of the dialogue, each item
    * only after the reply before it matched. It is Delivered only if the whole
    * dialogue, QUIT included, was written after six matched replies.
    */
  lemma SessionTrace(helo: string, mailFrom: string, recipient: string, message: MimeMessage, script: HostScript)
    ensures var s := Session(helo, mailFrom, recipient, message, script);
      var d := Dialogue(helo, mailFrom, recipient, message);
      && s.end.Some?
      && s.sent <= d
      && |s.sent| <= |s.replies|
      && (forall i | 0 <= i < |s.replies| - 1 :: s.replies[i] == Matched)
      && (forall j | 0 <= j < |s.sent| :: s.replies[j] == Matched)
      && (s.end == Some(Delivered) ==> s.sent == d && |s.replies| == 7)
      && (s.end == Some(Refused) ==> |s.replies| >= 1 && s.replies[|s.replies| - 1] == Mismatched && |s.sent| < 6)
      && (s.end == Some(Crashed) ==> |s.replies| >= 1 && s.replies[|s.replies| - 1] == IndexOutOfBounds)
  {
    var d := Dialogue(helo, mailFrom, recipient, message);
    if script.connects {
      RunFromStart(helo, mailFrom, recipient, message, script);
      var fin := Run(Protocol(helo, mailFrom, recipient), Exchange([], [], script.replies, None), message, script);
      assert d[..5] <= d;
      if fin.end.None? {
        assert d[..5] + [CommandLine("QUIT")] == d;
      }
    }
  }

  /**
    * Once the message is accepted, QUIT is written, and only reading its
    * reply can still change the outcome: an end of stream or a wrong code
    * leaves the attempt delivered, an IOException is caught like a failed
    * transfer, a line shorter than four characters throws.
    */
  lemma QuitDecides(helo: string, mailFrom: string, recipient: string, message: MimeMessage, script: HostScript)
    requires |Session(helo, mailFrom, recipient, message, script).sent| == 6
    ensures var s := Session(helo, mailFrom, recipient, message, script);
      && |s.replies| == 7
      && (forall i | 0 <= i < 6 :: s.replies[i] == Matched)
      && s.end == Some(match s.replies[6]
                       case ReadFailed => TransportFailed
                       case IndexOutOfBounds => Crashed
                       case _ => Delivered)
  {
    RunFromStart(helo, mailFrom, recipient, message, script);
  }

  /**
    * What the server receives of a delivered message that ends with a line
    * break and has no line that begins with '.': the message itself, followed
    * by the empty line that the terminator CR LF '.' CR LF adds. No
    * dot-stuffing is done, so only such messages keep all their bytes.
    */
  lemma DeliveredMessageReceived(helo: string, mailFrom: string, recipient: string, message: MimeMessage, script: HostScript)
    requires Session(helo, mailFrom, recipient, message, script).end == Some(Delivered)
    requires EndsWithLineBreak(message.bytes) && NoDotLineStart(message.bytes)
    ensures var s := Session(helo, mailFrom, recipient, message, script);
      && |s.sent| == 6 && s.sent[4] == Data(message.bytes + EndOfData)
      && Received(s.sent[4].bytes) == message.bytes + [CR, LF]
  {
    SessionTrace(helo, mailFrom, recipient, message, script);
    EmptyLineAdded(message.bytes);
  }

  /** A server that answers every protocol step with one line carrying the expected code. */
  predicate Cooperative(helo: string, mailFrom: string, recipient: string, events: seq<ServerEvent>) {
    |events| >= 6 && forall k | 0 <= k < 6 :: CompleteReply(events[k..], Protocol(helo, mailFrom, recipient)[k].code, 1)
  }

  lemma {:induction false} CooperativeFrom(helo: string, mailFrom: string, recipient: string, message: MimeMessage,
                                           script: HostScript, k: nat, ex: Exchange)
    requires Cooperative(helo, mailFrom, recipient, script.replies) && message.fromReadable
    requires message.serializable && script.transferSucceeds
    requires k <= 6 && OnTrack(ex, k, Dialogue(helo, mailFrom, recipient, message)) && ex.rest == script.replies[k..]
    ensures var fin := Run(Protocol(helo, mailFrom, recipient)[k..], ex, message, script);
      fin.end.None? && fin.rest == script.replies[6..]
    decreases 6 - k
  {
    var steps := Protocol(helo, mailFrom, recipient);
    var d := Dialogue(helo, mailFrom, recipient, message);
    if k == 6 {
      assert steps[k..] == [];
    } else {
      RunStep(steps, k, ex, message, script);
      CooperativeStep(helo, mailFrom, recipient, message, script, k, ex);
      CooperativeFrom(helo, mailFrom, recipient, message, script, k + 1, StepOnce(ex, steps[k], message, script));
    }
  }

  /**
    * One step whose reply is a single line with the step's code, and whose
    * write goes through, stays on track and consumes exactly that reply.
    */
  lemma CooperativeStep(helo: string, mailFrom: string, recipient: string, message: MimeMessage,
                        script: HostScript, k: nat, ex: Exchange)
    requires k < 6 && k <= |script.replies| && message.fromReadable
    requires CompleteReply(script.replies[k..], Protocol(helo, mailFrom, recipient)[k].code, 1)
    requires k == 5 ==> message.serializable && script.transferSucceeds
    requires OnTrack(ex, k, Dialogue(helo, mailFrom, recipient, message)) && ex.rest == script.replies[k..]
    ensures var next := StepOnce(ex, Protocol(helo, mailFrom, recipient)[k], message, script);
      OnTrack(next, k + 1, Dialogue(helo, mailFrom, recipient, message)) && next.rest == script.replies[k + 1..]
  {
    var steps := Protocol(helo, mailFrom, recipient);
    CompleteReplyMatches(script.replies[k..], steps[k].code, 1);
    assert script.replies[k..][1..] == script.replies[k + 1..];
    ProtocolWrites(helo, mailFrom, recipient, message, script, k);
    StepFromTrack(ex, steps[k], message, script, k, Dialogue(helo, mailFrom, recipient, message));
  }

  /**
    * Against a server that accepts every step, with a message that can be
    * read and written, the whole dialogue is written and QUIT's reply is read
    * from the seventh event on.
    */
  lemma CooperativeDialogue(helo: string, mailFrom: string, recipient: string, message: MimeMessage, script: HostScript)
    requires script.connects && Cooperative(helo, mailFrom, recipient, script.replies)
    requires message.fromReadable && message.serializable && script.transferSucceeds
    ensures var s := Session(helo, mailFrom, recipient, message, script);
      && s.sent == Dialogue(helo, mailFrom, recipient, message)
      && |s.replies| == 7 && s.replies[6] == ExpectReply(script.replies[6..], "221").outcome
  {
    var start := Exchange([], [], script.replies, None);
    var d := Dialogue(helo, mailFrom, recipient, message);
    assert OnTrack(start, 0, d);
    assert script.replies[0..] == script.replies;
    CooperativeFrom(helo, mailFrom, recipient, message, script, 0, start);
    assert Protocol(helo, mailFrom, recipient)[0..] == Protocol(helo, mailFrom, recipient);
    RunFromStart(helo, mailFrom, recipient, message, script);
    assert d[..5] + [CommandLine("QUIT")] == d;
  }

  /**
    * Such a server, if it then answers QUIT with a complete line or closes
    * the connection, gets the message delivered; only a QUIT reply that
    * cannot be read, or that throws, changes the verdict.
    */
  lemma CooperativeServerDelivers(helo: string, mailFrom: string, recipient: string, message: MimeMessage, script: HostScript)
    requires script.connects && Cooperative(helo, mailFrom, recipient, script.replies)
    requires message.fromReadable && message.serializable && script.transferSucceeds
    ensures var s := Session(helo, mailFrom, recipient, message, script);
      && s.sent == Dialogue(helo, mailFrom, recipient, message)
      && |s.replies| == 7 && s.replies[6] == ExpectReply(script.replies[6..], "221").outcome
      && (|script.replies| == 6 || script.replies[6].EndOfStream? || IsFinalLine(script.replies[6]) ==>
            s.end == Some(Delivered))
  {
    CooperativeDialogue(helo, mailFrom, recipient, message, script);
    QuitDecides(helo, mailFrom, recipient, message, script);
    var quit := script.replies[6..];
    if quit == [] || quit[0].EndOfStream? || IsFinalLine(quit[0]) {
      CompleteFirstLineDecides(quit, "221");
    }
  }

  /**
    * RCPT TO is checked against 250 alone, although section 4.2.2 of RFC 5321
    * also counts 251 ("user not local; will forward") as success. A server
    * that accepts the greeting, HELO and MAIL FROM and answers RCPT TO with a
    * 251 line gets the attempt refused, with nothing written after RCPT TO.
    */
  lemma ForwardingRecipientRefused(helo: string, mailFrom: string, recipient: string, message: MimeMessage,
                                   script: HostScript)
    requires script.connects && message.fromReadable && |script.replies| >= 4
    requires forall k | 0 <= k < 3 :: CompleteReply(script.replies[k..], Protocol(helo, mailFrom, recipient)[k].code, 1)
    requires script.replies[3].Line? && StartsWith(script.replies[3].text, "251")
    ensures var s := Session(helo, mailFrom, recipient, message, script);
      && s.end == Some(Refused)
      && s.sent == Dialogue(helo, mailFrom, recipient, message)[..3]
      && s.replies == [Matched, Matched, Matched, Mismatched]
  {
    var steps := Protocol(helo, mailFrom, recipient);
    var ex0 := Exchange([], [], script.replies, None);
    var ex3 := StepOnce(StepOnce(StepOnce(ex0, steps[0], message, script), steps[1], message, script),
                        steps[2], message, script);
    ThreeStepsOnTrack(helo, mailFrom, recipient, message, script);
    ForwardRefusedStep(helo, mailFrom, recipient, message, script, ex3);
    var ex4 := StepOnce(ex3, steps[3], message, script);
    RunStep(steps, 3, ex3, message, script);
    assert Run(steps[4..], ex4, message, script) == ex4;
  }

  /** Greeting, HELO and MAIL FROM, each answered by one line with its code, keep the run on track. */
  lemma ThreeStepsOnTrack(helo: string, mailFrom: string, recipient: string, message: MimeMessage, script: HostScript)
    requires message.fromReadable && |script.replies| >= 3
    requires forall k | 0 <= k < 3 :: CompleteReply(script.replies[k..], Protocol(helo, mailFrom, recipient)[k].code, 1)
    ensures var steps := Protocol(helo, mailFrom, recipient);
      var ex0 := Exchange([], [], script.replies, None);
      var ex3 := StepOnce(StepOnce(StepOnce(ex0, steps[0], message, script), steps[1], message, script),
                          steps[2], message, script);
      && OnTrack(ex3, 3, Dialogue(helo, mailFrom, recipient, message)) && ex3.rest == script.replies[3..]
      && Run(steps, ex0, message, script) == Run(steps[3..], ex3, message, script)
  {
    var steps := Protocol(helo, mailFrom, recipient);
    var d := Dialogue(helo, mailFrom, recipient, message);
    var ex0 := Exchange([], [], script.replies, None);
    assert OnTrack(ex0, 0, d);
    assert script.replies[0..] == script.replies;
    CooperativeStep(helo, mailFrom, recipient, message, script, 0, ex0);
    var ex1 := StepOnce(ex0, steps[0], message, script);
    CooperativeStep(helo, mailFrom, recipient, message, script, 1, ex1);
    var ex2 := StepOnce(ex1, steps[1], message, script);
    CooperativeStep(helo, mailFrom, recipient, message, script, 2, ex2);
    RunStep(steps, 0, ex0, message, script);
    RunStep(steps, 1, ex1, message, script);
    RunStep(steps, 2, ex2, message, script);
    assert steps[0..] == steps;
  }

  /** The RCPT TO step, answered with a 251 line, ends the attempt as Refused. */
  lemma ForwardRefusedStep(helo: string, mailFrom: string, recipient: string, message: MimeMessage,
                           script: HostScript, ex: Exchange)
    requires |script.replies| >= 4 && script.replies[3].Line? && StartsWith(script.replies[3].text, "251")
    requires OnTrack(ex, 3, Dialogue(helo, mailFrom, recipient, message)) && ex.rest == script.replies[3..]
    ensures var next := StepOnce(ex, Protocol(helo, mailFrom, recipient)[3], message, script);
      && next.end == Some(Refused)
      && next.sent == Dialogue(helo, mailFrom, recipient, message)[..3]
      && next.replies == [Matched, Matched, Matched, Mismatched]
  {
    var d := Dialogue(helo, mailFrom, recipient, message);
    var line := script.replies[3].text;
    assert line[..3][2] == '1';
    FirstLineRefusal(script.replies[3..], "250");
    assert d[..3] == d[..2] + [d[2]];
    assert ex.replies == [Matched, Matched, Matched];
  }

  /**
    * A server that accepts the message but whose QUIT reply cannot be read:
    * the whole dialogue was written and accepted, yet the attempt ends as a
    * transport failure, so the caller goes on to the next host.
    */
  lemma AcceptedThenQuitReadFails()
    ensures var msg := MimeMessage(true, true, [97, CR, LF]);
      var script := HostScript(true, [Line("220 mx"), Line("250 hi"), Line("250 ok"), Line("250 ok"),
                                      Line("354 go"), Line("250 queued"), ReadFailure], true);
      var s := Session("c", "a@b", "x@y", msg, script);
      s.sent == Dialogue("c", "a@b", "x@y", msg) && s.end == Some(TransportFailed)
  {
    var msg := MimeMessage(true, true, [97, CR, LF]);
    var events := [Line("220 mx"), Line("250 hi"), Line("250 ok"), Line("250 ok"),
                   Line("354 go"), Line("250 queued"), ReadFailure];
    var script := HostScript(true, events, true);
    SampleServerCooperates(events);
    CooperativeDialogue("c", "a@b", "x@y", msg, script);
    assert events[6..] == [ReadFailure];
    QuitDecides("c", "a@b", "x@y", msg, script);
  }

  /** The server of `AcceptedThenQuitReadFails` gives every expected code up to QUIT. */
  lemma SampleServerCooperates(events: seq<ServerEvent>)
    requires events == [Line("220 mx"), Line("250 hi"), Line("250 ok"), Line("250 ok"),
                        Line("354 go"), Line("250 queued"), ReadFailure]
    ensures Cooperative("c", "a@b", "x@y", events)
  {
    forall k | 0 <= k < 6
      ensures CompleteReply(events[k..], Protocol("c", "a@b", "x@y")[k].code, 1)
    {
      assert events[k..][0] == events[k];
    }
  }
}
