/**
  * `EmailSender.sendEmail`: pick the hosts (the override server, or the
  * recipient domain's MX hosts), then try them in order. The first attempt
  * that reaches a verdict decides the result; only an attempt that ends in an
  * IOException or MessagingException lets the next host be tried.
  */
module EmailDelivery {
  import opened Wrappers
  import opened SmtpReply
  import opened SmtpSession
  import opened MxLookup

  /** How `sendEmail` ends: it returns a boolean, or an unchecked exception escapes it. */
  datatype SendResult = Returned(ok: bool) | Threw

  /** One pass of the host loop: where it connected and how the attempt went. */
  datatype HostAttempt = HostAttempt(host: string, port: int, sent: seq<Outgoing>, outcome: AttemptOutcome)

  /** The SMTP port used when no override server is set. */
  const SmtpPort := 25

  /** The ports `java.net.Socket` accepts; any other port makes its constructor throw IllegalArgumentException. */
  predicate ValidPort(port: int) {
    0 <= port <= 65535
  }

  /**
    * The hosts `sendEmail` tries and the port, or None when it returns false
    * before the loop: the domain does not parse, or no host was found.
    */
  function Route(overrideHost: Option<string>, overridePort: int, dns: Dns, recipient: string): (r: Option<(seq<string>, int)>)
    ensures r.Some? ==> r.value.0 != []
    ensures overrideHost.Some? ==> r.Some? && |r.value.0| == 1
    ensures overrideHost.None? && r.Some? ==> r.value.1 == SmtpPort
  {
    match overrideHost
    case Some(h) => Some(([h], overridePort))
    case None =>
      match CandidateHosts(dns, Domain(recipient))
      case None => None
      case Some(hosts) => if hosts == [] then None else Some((hosts, SmtpPort))
  }

  /**
    * The attempt against `host`, as the host loop records it. A port the
    * socket refuses throws an unchecked exception before anything is written,
    * which the loop's catch does not take.
    */
  function AttemptAt(host: string, port: int, helo: string, mailFrom: string, recipient: string, message: MimeMessage,
                     network: (string, int) -> HostScript): HostAttempt
  {
    if !ValidPort(port) then HostAttempt(host, port, [], Crashed)
    else
      var s := Session(helo, mailFrom, recipient, message, network(host, port));
      HostAttempt(host, port, s.sent, s.end.value)
  }

  /** The attempt the sender makes against each host. */
  function Attempts(port: int, helo: string, mailFrom: string, recipient: string, message: MimeMessage,
                    network: (string, int) -> HostScript): string -> HostAttempt
  {
    host => AttemptAt(host, port, helo, mailFrom, recipient, message, network)
  }

  /** The host loop: try `hosts` in order, `attempt` giving each attempt, until one reaches a verdict. */
  function Deliver(hosts: seq<string>, attempt: string -> HostAttempt): (SendResult, seq<HostAttempt>)
    decreases |hosts|
  {
    if hosts == [] then (Returned(false), [])
    else
      var a := attempt(hosts[0]);
      match a.outcome
      case Delivered => (Returned(true), [a])
      case Refused => (Returned(false), [a])
      case Crashed => (Threw, [a])
      case TransportFailed =>
        var next := Deliver(hosts[1..], attempt);
        (next.0, [a] + next.1)
  }

  /**
    * The whole of `sendEmail`, for the sender's configuration: true exactly
    * when the last host tried delivered, an exception exactly when the last
    * attempt crashed, and at most one attempt with an override server.
    */
  function SendOutcome(helo: string, mailFrom: string, overrideHost: Option<string>, overridePort: int,
                       recipient: string, message: MimeMessage, dns: Dns,
                       network: (string, int) -> HostScript): (r: (SendResult, seq<HostAttempt>))
    ensures r.0 == Returned(true) <==> r.1 != [] && r.1[|r.1| - 1].outcome == Delivered
    ensures r.0 == Threw <==> r.1 != [] && r.1[|r.1| - 1].outcome == Crashed
    ensures overrideHost.Some? ==> |r.1| == 1
  {
    match Route(overrideHost, overridePort, dns, recipient)
    case None => (Returned(false), [])
    case Some((hosts, port)) =>
      var attempt := Attempts(port, helo, mailFrom, recipient, message, network);
      DeliverTriesInOrder(hosts, attempt);
      Deliver(hosts, attempt)
  }

  /** The sender and its configuration. */
  class EmailSender {
    var heloDomain: string
    var mailFrom: string
    var overrideSmtpHost: Option<string>
    var overrideSmtpPort: int

    /** The default configuration. */
    constructor ()
      ensures heloDomain == "my-smtp-client.example.com" && mailFrom == "sender@example.com"
      ensures overrideSmtpHost == None && overrideSmtpPort == SmtpPort
    {
      heloDomain := "my-smtp-client.example.com";
      mailFrom := "sender@example.com";
      overrideSmtpHost := None;
      overrideSmtpPort := SmtpPort;
    }

    /** A sender with its own envelope sender and HELO name. */
    constructor WithEnvelope(mailFrom: string, heloDomain: string)
      ensures this.heloDomain == heloDomain && this.mailFrom == mailFrom
      ensures overrideSmtpHost == None && overrideSmtpPort == SmtpPort
    {
      this.heloDomain := heloDomain;
      this.mailFrom := mailFrom;
      overrideSmtpHost := None;
      overrideSmtpPort := SmtpPort;
    }

    /** `setOverrideSmtpServer`: a null host (None) switches the override off again. */
    method SetOverrideSmtpServer(host: Option<string>, port: int)
      modifies this
      ensures overrideSmtpHost == host && overrideSmtpPort == port
      ensures heloDomain == old(heloDomain) && mailFrom == old(mailFrom)
    {
      overrideSmtpHost := host;
      overrideSmtpPort := port;
    }

    /** The outcome `sendEmail` has for the current configuration. */
    function Expected(recipient: string, message: MimeMessage, dns: Dns, network: (string, int) -> HostScript)
      : (SendResult, seq<HostAttempt>)
      reads this
    {
      SendOutcome(heloDomain, mailFrom, overrideSmtpHost, overrideSmtpPort, recipient, message, dns, network)
    }

    /**
      * `sendEmail`: route, then the host loop. Nothing about the sender
      * changes; the attempts made are returned beside the result.
      */
    method SendEmail(recipient: string, message: MimeMessage, dns: Dns, network: (string, int) -> HostScript)
      returns (result: SendResult, attempts: seq<HostAttempt>)
      ensures (result, attempts) == Expected(recipient, message, dns, network)
    {
      var domain := Domain(recipient);
      var hosts: seq<string>;
      if overrideSmtpHost.Some? {
        hosts := [overrideSmtpHost.value];
      } else {
        var found := GetMXHosts(dns, domain);
        if found.None? || found.value == [] {
          return Returned(false), [];
        }
        hosts := found.value;
      }
      var port := if overrideSmtpHost.Some? then overrideSmtpPort else SmtpPort;
      assert Route(overrideSmtpHost, overrideSmtpPort, dns, recipient) == Some((hosts, port));
      result, attempts := TryHosts(hosts, port, heloDomain, mailFrom, recipient, message, network,
                                   Attempts(port, heloDomain, mailFrom, recipient, message, network));
    }
  }

  /** One host: the attempt `Attempt` makes, recorded with where it connected. */
  method TryHost(host: string, port: int, helo: string, mailFrom: string, recipient: string, message: MimeMessage,
                 network: (string, int) -> HostScript)
    returns (a: HostAttempt)
    ensures a == AttemptAt(host, port, helo, mailFrom, recipient, message, network)
  {
    if !ValidPort(port) {
      return HostAttempt(host, port, [], Crashed);
    }
    var outcome, sent := Attempt(helo, mailFrom, recipient, message, network(host, port));
    a := HostAttempt(host, port, sent, outcome);
  }

  /** Steps `i..` of the host loop: one attempt, then the rest only after a transport failure. */
  lemma DeliverFrom(hosts: seq<string>, i: nat, attempt: string -> HostAttempt)
    requires i < |hosts|
    ensures var a := attempt(hosts[i]);
      var next := Deliver(hosts[i + 1..], attempt);
      Deliver(hosts[i..], attempt)
        == match a.outcome
           case Delivered => (Returned(true), [a])
           case Refused => (Returned(false), [a])
           case Crashed => (Threw, [a])
           case TransportFailed => (next.0, [a] + next.1)
  {
    assert hosts[i..][0] == hosts[i] && hosts[i..][1..] == hosts[i + 1..];
  }

  /** The rest of the loop's run after the attempts already made. */
  function Resumed(made: seq<HostAttempt>, rest: (SendResult, seq<HostAttempt>)): (SendResult, seq<HostAttempt>) {
    (rest.0, made + rest.1)
  }

  /** One pass of the loop, after the attempts `made`: the attempt at host `i` decides, or the loop moves on. */
  lemma ResumeStep(hosts: seq<string>, i: nat, attempt: string -> HostAttempt, made: seq<HostAttempt>)
    requires i < |hosts|
    ensures var a := attempt(hosts[i]);
      Resumed(made, Deliver(hosts[i..], attempt))
        == match a.outcome
           case Delivered => (Returned(true), made + [a])
           case Refused => (Returned(false), made + [a])
           case Crashed => (Threw, made + [a])
           case TransportFailed => Resumed(made + [a], Deliver(hosts[i + 1..], attempt))
  {
    DeliverFrom(hosts, i, attempt);
    var next := Deliver(hosts[i + 1..], attempt);
    AppendAssociates(made, [attempt(hosts[i])], next.1);
  }

  /**
    * The loop of `sendEmail` over the hosts: an attempt per host until one
    * delivers, is refused or throws; false when every host failed.
    */
  method TryHosts(hosts: seq<string>, port: int, helo: string, mailFrom: string, recipient: string,
                  message: MimeMessage, network: (string, int) -> HostScript, ghost attempt: string -> HostAttempt)
    returns (result: SendResult, attempts: seq<HostAttempt>)
    requires forall h {:trigger AttemptAt(h, port, helo, mailFrom, recipient, message, network)} ::
      attempt(h) == AttemptAt(h, port, helo, mailFrom, recipient, message, network)
    ensures (result, attempts) == Deliver(hosts, attempt)
  {
    ghost var whole := Deliver(hosts, attempt);
    attempts := [];
    var i := 0;
    assert hosts[0..] == hosts;
    assert attempts + whole.1 == whole.1;
    while i < |hosts|
      invariant 0 <= i <= |hosts|
      invariant whole == Resumed(attempts, Deliver(hosts[i..], attempt))
    {
      var a := TryHost(hosts[i], port, helo, mailFrom, recipient, message, network);
      ResumeStep(hosts, i, attempt, attempts);
      attempts := attempts + [a];
      if a.outcome == Delivered {
        return Returned(true), attempts;
      } else if a.outcome == Refused {
        return Returned(false), attempts;
      } else if a.outcome == Crashed {
        return Threw, attempts;
      }
      i := i + 1;
    }
    assert hosts[i..] == [];
    assert attempts + [] == attempts;
    result := Returned(false);
  }

  /**
    * The host loop tries a prefix of the hosts in order, one attempt each;
    * every attempt but the last ended in a transport failure, and the last
    * one decides: true exactly when it delivered, an exception exactly when it
    * crashed, and false when it was refused or every host failed.
    */
  lemma {:induction false} DeliverTriesInOrder(hosts: seq<string>, attempt: string -> HostAttempt)
    ensures var (result, attempts) := Deliver(hosts, attempt);
      && |attempts| <= |hosts|
      && (attempts == [] <==> hosts == [])
      && (forall k | 0 <= k < |attempts| :: attempts[k] == attempt(hosts[k]))
      && (forall k | 0 <= k < |attempts| - 1 :: attempts[k].outcome == TransportFailed)
      && (result == Returned(true) <==> attempts != [] && attempts[|attempts| - 1].outcome == Delivered)
      && (result == Threw <==> attempts != [] && attempts[|attempts| - 1].outcome == Crashed)
      && (result == Returned(false) <==>
            attempts == [] || attempts[|attempts| - 1].outcome in {Refused, TransportFailed})
      && (attempts != [] && attempts[|attempts| - 1].outcome == TransportFailed ==> |attempts| == |hosts|)
    decreases |hosts|
  {
    if hosts != [] {
      var a := attempt(hosts[0]);
      if a.outcome == TransportFailed {
        DeliverTriesInOrder(hosts[1..], attempt);
        var next := Deliver(hosts[1..], attempt);
        var attempts := [a] + next.1;
        forall k | 1 <= k < |attempts|
          ensures attempts[k] == attempt(hosts[k])
        {
          assert attempts[k] == next.1[k - 1] && hosts[1..][k - 1] == hosts[k];
        }
      }
    }
  }

  /**
    * Where the loop goes: with an override server, that one server on the
    * override port; otherwise the MX lookup's hosts on port 25. No lookup
    * result, or an empty one, means false with no attempt.
    */
  lemma RouteChoice(helo: string, mailFrom: string, overrideHost: Option<string>, overridePort: int,
                    recipient: string, message: MimeMessage, dns: Dns, network: (string, int) -> HostScript)
    ensures var route := Route(overrideHost, overridePort, dns, recipient);
      && (overrideHost.Some? ==> route == Some(([overrideHost.value], overridePort)))
      && (overrideHost.None? ==>
            (route.None? <==> CandidateHosts(dns, Domain(recipient)) in {None, Some([])})
            && (route.Some? ==> route.value == (CandidateHosts(dns, Domain(recipient)).value, SmtpPort)))
      && (route.None? ==>
            SendOutcome(helo, mailFrom, overrideHost, overridePort, recipient, message, dns, network) == (Returned(false), []))
  {
  }

  /**
    * A true result means the last host tried was sent the whole dialogue
    * after accepting every step, and every host before it failed in transport.
    */
  lemma DeliveredMeansFullDialogue(hosts: seq<string>, port: int, helo: string, mailFrom: string, recipient: string,
                                   message: MimeMessage, network: (string, int) -> HostScript)
    requires Deliver(hosts, Attempts(port, helo, mailFrom, recipient, message, network)).0 == Returned(true)
    ensures var attempts := Deliver(hosts, Attempts(port, helo, mailFrom, recipient, message, network)).1;
      && attempts != []
      && attempts[|attempts| - 1].sent == Dialogue(helo, mailFrom, recipient, message)
      && attempts[|attempts| - 1].outcome == Delivered
      && (forall k | 0 <= k < |attempts| - 1 :: attempts[k].outcome == TransportFailed)
  {
    var attempt := Attempts(port, helo, mailFrom, recipient, message, network);
    DeliverTriesInOrder(hosts, attempt);
    var attempts := Deliver(hosts, attempt).1;
    var k := |attempts| - 1;
    assert attempts[k] == AttemptAt(hosts[k], port, helo, mailFrom, recipient, message, network);
    SessionTrace(helo, mailFrom, recipient, message, network(hosts[k], port));
  }

  /**
    * When no host accepts a connection on a port the socket takes, every host
    * is tried, nothing is written, and the result is false (the other ports
    * are `InvalidPortThrows`).
    */
  lemma NoHostReachable(hosts: seq<string>, port: int, helo: string, mailFrom: string, recipient: string,
                        message: MimeMessage, network: (string, int) -> HostScript)
    requires ValidPort(port)
    requires forall h | h in hosts :: !network(h, port).connects
    ensures var (result, attempts) := Deliver(hosts, Attempts(port, helo, mailFrom, recipient, message, network));
      && result == Returned(false) && |attempts| == |hosts|
      && forall k | 0 <= k < |attempts| :: attempts[k].sent == [] && attempts[k].outcome == TransportFailed
  {
    var attempt := Attempts(port, helo, mailFrom, recipient, message, network);
    DeliverTriesInOrder(hosts, attempt);
    var (result, attempts) := Deliver(hosts, attempt);
    forall k | 0 <= k < |attempts|
      ensures attempts[k].sent == [] && attempts[k].outcome == TransportFailed
    {
      assert hosts[k] in hosts;
      assert attempts[k] == AttemptAt(hosts[k], port, helo, mailFrom, recipient, message, network);
    }
  }

  /**
    * A host that accepts the message but whose QUIT reply cannot be read
    * counts as a failed host: the next host is tried, in a whole new session
    * on the second host.
    */
  lemma AcceptedMessageResent(hosts: seq<string>, port: int, helo: string, mailFrom: string, recipient: string,
                              message: MimeMessage, network: (string, int) -> HostScript)
    requires |hosts| >= 2
    requires var a := AttemptAt(hosts[0], port, helo, mailFrom, recipient, message, network);
      a.sent == Dialogue(helo, mailFrom, recipient, message) && a.outcome == TransportFailed
    ensures var attempts := Deliver(hosts, Attempts(port, helo, mailFrom, recipient, message, network)).1;
      && |attempts| >= 2
      && attempts[0].sent == Dialogue(helo, mailFrom, recipient, message)
      && attempts[1] == AttemptAt(hosts[1], port, helo, mailFrom, recipient, message, network)
  {
    var attempt := Attempts(port, helo, mailFrom, recipient, message, network);
    DeliverTriesInOrder(hosts, attempt);
    assert attempt(hosts[0]) == AttemptAt(hosts[0], port, helo, mailFrom, recipient, message, network);
  }

  /**
    * A port outside 0..65535 makes the first socket throw: `sendEmail` ends
    * in an exception after one attempt that wrote nothing.
    */
  lemma InvalidPortThrows(hosts: seq<string>, port: int, helo: string, mailFrom: string, recipient: string,
                          message: MimeMessage, network: (string, int) -> HostScript)
    requires hosts != [] && !ValidPort(port)
    ensures Deliver(hosts, Attempts(port, helo, mailFrom, recipient, message, network))
      == (Threw, [HostAttempt(hosts[0], port, [], Crashed)])
  {
    var attempt := Attempts(port, helo, mailFrom, recipient, message, network);
    assert attempt(hosts[0]) == HostAttempt(hosts[0], port, [], Crashed);
  }

  /** An override server on a port the socket refuses: the exception escapes `sendEmail`. */
  lemma InvalidOverridePortThrows(helo: string, mailFrom: string, host: string, port: int, recipient: string,
                                  message: MimeMessage, dns: Dns, network: (string, int) -> HostScript)
    requires !ValidPort(port)
    ensures SendOutcome(helo, mailFrom, Some(host), port, recipient, message, dns, network)
      == (Threw, [HostAttempt(host, port, [], Crashed)])
  {
    InvalidPortThrows([host], port, helo, mailFrom, recipient, message, network);
  }

  /**
    * An override server that accepts each step and then answers QUIT with a
    * complete line (or closes the connection): `sendEmail` returns true after
    * writing the whole dialogue to it.
    */
  lemma CooperativeOverrideDelivers(helo: string, mailFrom: string, host: string, port: int, recipient: string,
                                    message: MimeMessage, dns: Dns, network: (string, int) -> HostScript)
    requires ValidPort(port)
    requires var script := network(host, port);
      && script.connects && Cooperative(helo, mailFrom, recipient, script.replies)
      && message.fromReadable && message.serializable && script.transferSucceeds
      && (|script.replies| == 6 || script.replies[6].EndOfStream? || IsFinalLine(script.replies[6]))
    ensures SendOutcome(helo, mailFrom, Some(host), port, recipient, message, dns, network)
      == (Returned(true), [HostAttempt(host, port, Dialogue(helo, mailFrom, recipient, message), Delivered)])
  {
    CooperativeServerDelivers(helo, mailFrom, recipient, message, network(host, port));
    var attempt := Attempts(port, helo, mailFrom, recipient, message, network);
    assert attempt(host) == HostAttempt(host, port, Dialogue(helo, mailFrom, recipient, message), Delivered);
  }
}
