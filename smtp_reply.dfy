/**
  * Reading one SMTP reply the way `EmailSender.expectCode` does. A reply is one
  * or more lines; every line but the last carries '-' as its fourth character
  * (the multi-line convention of section 4.2 of RFC 5321). Only the FIRST line's
  * code is compared with the expected one, by `startsWith`; continuation lines
  * are read and never checked.
  */
module SmtpReply {
  import opened JavaStrings

  /** What one `readLine()` on the connection yields. */
  datatype ServerEvent =
    | Line(text: string)   // a line, without its terminator
    | EndOfStream          // readLine() returned null: the server closed the connection
    | ReadFailure          // readLine() threw an IOException (the 10 s read timeout included)

  /** How one `expectCode` call ends. */
  datatype ReplyOutcome =
    | Matched              // returned true
    | Mismatched           // returned false
    | ReadFailed           // an IOException escaped from readLine()
    | IndexOutOfBounds     // line.charAt(3) threw StringIndexOutOfBoundsException

  /** The outcome together with the events still unread afterwards. */
  datatype Reply = Reply(outcome: ReplyOutcome, rest: seq<ServerEvent>)

  /** One `readLine()`: a script that has run out reads as end of stream. */
  function ReadLine(events: seq<ServerEvent>): (r: (ServerEvent, seq<ServerEvent>))
    ensures r.0.Line? ==> |r.1| < |events|
  {
    if events == [] then (EndOfStream, []) else (events[0], events[1..])
  }

  /** The first line read is `line`; it matched. Read on while its 4th character is '-'. */
  function AfterFirstLine(line: string, events: seq<ServerEvent>): Reply
    decreases |events|
  {
    if |line| < 4 then Reply(IndexOutOfBounds, events)
    else if line[3] != '-' then Reply(Matched, events)
    else
      var (ev, rest) := ReadLine(events);
      match ev
      case ReadFailure => Reply(ReadFailed, rest)
      case EndOfStream => Reply(Mismatched, rest)
      case Line(next) => AfterFirstLine(next, rest)
  }

  /** The reply `expectCode(reader, code)` reads from `events`. */
  function ExpectReply(events: seq<ServerEvent>, code: string): Reply {
    var (ev, rest) := ReadLine(events);
    match ev
    case ReadFailure => Reply(ReadFailed, rest)
    case EndOfStream => Reply(Mismatched, rest)
    case Line(line) =>
      if !StartsWith(line, code) then Reply(Mismatched, rest) else AfterFirstLine(line, rest)
  }

  /** `expectCode`: the loop reassigns `line` from the reader until the 4th character is not '-'. */
  method ExpectCode(events: seq<ServerEvent>, code: string) returns (outcome: ReplyOutcome, rest: seq<ServerEvent>)
    ensures Reply(outcome, rest) == ExpectReply(events, code)
  {
    var ev;
    ev, rest := ReadLine(events).0, ReadLine(events).1;
    if ev.EndOfStream? {
      return Mismatched, rest;
    } else if ev.ReadFailure? {
      return ReadFailed, rest;
    }
    var line := ev.text;
    if !StartsWith(line, code) {
      return Mismatched, rest;
    }
    while |line| >= 4 && line[3] == '-'
      invariant AfterFirstLine(line, rest) == ExpectReply(events, code)
      decreases |rest|
    {
      ev, rest := ReadLine(rest).0, ReadLine(rest).1;
      if ev.EndOfStream? {
        return Mismatched, rest;
      } else if ev.ReadFailure? {
        return ReadFailed, rest;
      }
      line := ev.text;
    }
    outcome := if |line| < 4 then IndexOutOfBounds else Matched;
  }

  /** A line that announces another line of the same reply. */
  predicate IsContinuation(ev: ServerEvent) {
    ev.Line? && |ev.text| >= 4 && ev.text[3] == '-'
  }

  /** A line that ends a reply. */
  predicate IsFinalLine(ev: ServerEvent) {
    ev.Line? && |ev.text| >= 4 && ev.text[3] != '-'
  }

  /**
    * The first `n` events form one complete reply whose first line starts with
    * `code`: continuation lines, then one final line. The codes of the lines
    * after the first play no part.
    */
  predicate CompleteReply(events: seq<ServerEvent>, code: string, n: int) {
    && 1 <= n <= |events|
    && events[0].Line? && StartsWith(events[0].text, code)
    && (forall i | 0 <= i < n - 1 :: IsContinuation(events[i]))
    && IsFinalLine(events[n - 1])
  }

  /**
    * The first line decides a refusal: end of stream, or a first line not
    * starting with `code`, gives false after reading that one line only.
    */
  lemma FirstLineRefusal(events: seq<ServerEvent>, code: string)
    requires events == [] || events[0].EndOfStream? || (events[0].Line? && !StartsWith(events[0].text, code))
    ensures ExpectReply(events, code) == Reply(Mismatched, if events == [] then [] else events[1..])
  {
  }

  /**
    * A reply whose first line is complete, or that is missing, never fails
    * to be read and never throws: it is matched or refused.
    */
  lemma CompleteFirstLineDecides(events: seq<ServerEvent>, code: string)
    requires events == [] || events[0].EndOfStream? || IsFinalLine(events[0])
    ensures ExpectReply(events, code).outcome in {Matched, Mismatched}
  {
    if events != [] && IsFinalLine(events[0]) && StartsWith(events[0].text, code) {
      CompleteReplyMatches(events, code, 1);
    } else {
      FirstLineRefusal(events, code);
    }
  }

  /** From a reply that matched, the lines it consumed form a complete reply. */
  lemma {:induction false} MatchedIsCompleteReply(events: seq<ServerEvent>, code: string)
    requires ExpectReply(events, code).outcome == Matched
    ensures var r := ExpectReply(events, code);
      && |r.rest| < |events|
      && CompleteReply(events, code, |events| - |r.rest|)
      && r.rest == events[|events| - |r.rest|..]
  {
    MatchedAfterLine(events, 0, code);
  }

  lemma {:induction false} MatchedAfterLine(events: seq<ServerEvent>, j: nat, code: string)
    requires j < |events| && events[0].Line? && StartsWith(events[0].text, code)
    requires forall i | 0 <= i < j :: IsContinuation(events[i])
    requires events[j].Line?
    requires AfterFirstLine(events[j].text, events[j + 1..]).outcome == Matched
    ensures var r := AfterFirstLine(events[j].text, events[j + 1..]);
      && |r.rest| < |events|
      && CompleteReply(events, code, |events| - |r.rest|)
      && r.rest == events[|events| - |r.rest|..]
    decreases |events| - j
  {
    var line := events[j].text;
    if |line| >= 4 && line[3] == '-' {
      var rest := events[j + 1..];
      assert rest != [];
      assert rest[0] == events[j + 1] && rest[1..] == events[j + 2..];
      MatchedAfterLine(events, j + 1, code);
    }
  }

  /** A complete reply is read as matched, and exactly its lines are consumed. */
  lemma {:induction false} CompleteReplyMatches(events: seq<ServerEvent>, code: string, n: int)
    requires CompleteReply(events, code, n)
    ensures ExpectReply(events, code) == Reply(Matched, events[n..])
  {
    CompleteReplyFrom(events, code, n, 0);
  }

  lemma {:induction false} CompleteReplyFrom(events: seq<ServerEvent>, code: string, n: int, j: nat)
    requires CompleteReply(events, code, n) && j < n
    ensures AfterFirstLine(events[j].text, events[j + 1..]) == Reply(Matched, events[n..])
    decreases n - j
  {
    if j < n - 1 {
      assert IsContinuation(events[j]);
      var rest := events[j + 1..];
      assert rest[0] == events[j + 1] && rest[1..] == events[j + 2..];
      CompleteReplyFrom(events, code, n, j + 1);
    }
  }

  /** The expected reply is matched exactly when the script opens with a complete reply. */
  lemma MatchedIff(events: seq<ServerEvent>, code: string)
    ensures ExpectReply(events, code).outcome == Matched <==> exists n :: CompleteReply(events, code, n)
  {
    if ExpectReply(events, code).outcome == Matched {
      MatchedIsCompleteReply(events, code);
    }
    if n :| CompleteReply(events, code, n) {
      CompleteReplyMatches(events, code, n);
    }
  }

  /**
    * A matching first line, continuation lines, then a line shorter than four
    * characters: `charAt(3)` throws, whatever the first line's code was.
    */
  lemma {:induction false} ShortLineThrows(events: seq<ServerEvent>, code: string, n: int)
    requires 1 <= n <= |events|
    requires events[0].Line? && StartsWith(events[0].text, code)
    requires forall i | 0 <= i < n - 1 :: IsContinuation(events[i])
    requires events[n - 1].Line? && |events[n - 1].text| < 4
    ensures ExpectReply(events, code) == Reply(IndexOutOfBounds, events[n..])
  {
    ShortLineFrom(events, code, n, 0);
  }

  lemma {:induction false} ShortLineFrom(events: seq<ServerEvent>, code: string, n: int, j: nat)
    requires 1 <= n <= |events| && j < n && events[j].Line?
    requires forall i | 0 <= i < n - 1 :: IsContinuation(events[i])
    requires events[n - 1].Line? && |events[n - 1].text| < 4
    ensures AfterFirstLine(events[j].text, events[j + 1..]) == Reply(IndexOutOfBounds, events[n..])
    decreases n - j
  {
    if j < n - 1 {
      var rest := events[j + 1..];
      assert rest[0] == events[j + 1] && rest[1..] == events[j + 2..];
      assert j + 1 < n - 1 ==> IsContinuation(events[j + 1]);
      ShortLineFrom(events, code, n, j + 1);
    }
  }

  /** A three-line reply is read to its end before it counts as matched. */
  lemma MultiLineGreeting()
    ensures ExpectReply([Line("250-Hello"), Line("250-SIZE 1000"), Line("250 OK"), Line("221 Bye")], "250")
         == Reply(Matched, [Line("221 Bye")])
  {
    var events := [Line("250-Hello"), Line("250-SIZE 1000"), Line("250 OK"), Line("221 Bye")];
    assert CompleteReply(events, "250", 3);
    CompleteReplyMatches(events, "250", 3);
  }
}
