/**
  * The bytes written after `DATA` and how a receiver finds their end. The
  * client copies the message verbatim and appends CR LF '.' CR LF; it does not
  * apply the dot-stuffing of section 4.5.2 of RFC 5321. A receiver takes the
  * first CR LF '.' CR LF, counting the CR LF that ended the DATA command line,
  * as the end of the data. The CR LF of that marker ends the last line of the
  * message and is kept (section 4.1.1.4), so a message that already ends with
  * CR LF arrives with one empty line added. The receiver also removes the
  * first '.' of every line, as section 4.5.2 tells it to.
  */
module SmtpData {

  newtype byte = x: int | 0 <= x < 256

  const CR: byte := 13
  const LF: byte := 10
  const Dot: byte := 46

  /** CR LF . CR LF, written after the message. */
  const EndOfData: seq<byte> := [CR, LF, Dot, CR, LF]

  /** The end-of-data marker starts at position `i` of `t`. */
  predicate MarkerAt(t: seq<byte>, i: int) {
    0 <= i && i + 5 <= |t| && t[i..i + 5] == EndOfData
  }

  /** The first position at or after `from` where the marker starts, or |t| when none does. */
  function FindMarker(t: seq<byte>, from: nat): (k: nat)
    requires from <= |t|
    ensures from <= k <= |t|
    ensures k < |t| ==> MarkerAt(t, k)
    ensures forall j | from <= j < k :: !MarkerAt(t, j)
    decreases |t| - from
  {
    if from == |t| then |t|
    else if MarkerAt(t, from) then from
    else FindMarker(t, from + 1)
  }

  /**
    * The receiver's half of dot-stuffing: a '.' that begins a line is dropped.
    * `lineStart` says that `data` begins a line, `afterCR` that the byte before
    * it was a CR.
    */
  function Unstuff(data: seq<byte>, lineStart: bool, afterCR: bool): seq<byte>
    decreases |data|
  {
    if data == [] then []
    else if lineStart && data[0] == Dot then Unstuff(data[1..], false, false)
    else [data[0]] + Unstuff(data[1..], afterCR && data[0] == LF, data[0] == CR)
  }

  /**
    * What a receiver takes as the message when `stream` is what followed the
    * DATA command line: everything up to the first end-of-data marker, with
    * the marker's CR LF kept as the end of the last line (the leading CR LF
    * is the one that ended the DATA line), and the first '.' of each line
    * removed. A stream without a marker is taken whole.
    */
  function Received(stream: seq<byte>): seq<byte> {
    var t := [CR, LF] + stream;
    var k := FindMarker(t, 0);
    var cut := if k < |t| then k + 2 else |t|;
    Unstuff(t[2..cut], true, false)
  }

  /** A line of the message starts at position `j`: at the very beginning, or right after CR LF. */
  predicate LineStartAt(message: seq<byte>, j: int) {
    j == 0 || (2 <= j <= |message| && message[j - 2] == CR && message[j - 1] == LF)
  }

  /** No line of the message begins with '.', so there is nothing the receiver would un-stuff. */
  predicate NoDotLineStart(message: seq<byte>) {
    forall j | 0 <= j < |message| :: LineStartAt(message, j) ==> message[j] != Dot
  }

  /** No line of the message is a lone ".": the marker does not occur in CR LF + message. */
  predicate NoLoneDotLine(message: seq<byte>) {
    forall j | 0 <= j < |message| + 2 :: !MarkerAt([CR, LF] + message, j)
  }

  /** The message ends with CR LF (or is empty), as a serialized message does. */
  predicate EndsWithLineBreak(message: seq<byte>) {
    |message| == 0 || (|message| >= 2 && message[|message| - 2..] == [CR, LF])
  }

  /**
    * What the client's terminator does to a message that ends with a line
    * break and has no line that begins with '.': the CR LF that starts the
    * marker ends one more, empty, line, so the receiver gets the message
    * followed by CR LF.
    */
  lemma {:induction false} EmptyLineAdded(message: seq<byte>)
    requires EndsWithLineBreak(message) && NoDotLineStart(message)
    ensures Received(message + EndOfData) == message + [CR, LF]
  {
    var t := [CR, LF] + (message + EndOfData);
    var m := |message|;
    AppendedMarkerFirst(message);
    FindFirst(t, 0, m + 2);
    assert t[2..m + 4] == message + [CR, LF];
    NoDotLineStartExtended(message);
    UnstuffKeeps(message + [CR, LF], 0);
    assert (message + [CR, LF])[0..] == message + [CR, LF];
  }

  /** The first marker in a message sent with the client's terminator is that terminator. */
  lemma AppendedMarkerFirst(message: seq<byte>)
    requires EndsWithLineBreak(message) && NoDotLineStart(message)
    ensures MarkerAt([CR, LF] + (message + EndOfData), |message| + 2)
    ensures forall j | 0 <= j < |message| + 2 :: !MarkerAt([CR, LF] + (message + EndOfData), j)
  {
    var t := [CR, LF] + (message + EndOfData);
    var m := |message|;
    assert MarkerAt(t, m + 2) by {
      assert t == ([CR, LF] + message) + EndOfData;
      assert |[CR, LF] + message| == m + 2;
    }
    NoDotLineStartNoMarker(message);
    NoMarkerBeforeEnd(message);
  }

  /**
    * Round trip: a message that ends with a line break and has no line that
    * begins with '.' is received byte for byte when only "." CR LF follows
    * it, its own last CR LF serving as the start of the marker.
    */
  lemma {:induction false} VerbatimRoundTrip(message: seq<byte>)
    requires EndsWithLineBreak(message) && NoDotLineStart(message)
    ensures Received(message + [Dot, CR, LF]) == message
  {
    var u := [CR, LF] + message;
    var t := [CR, LF] + (message + [Dot, CR, LF]);
    var m := |message|;
    assert t == u + [Dot, CR, LF];
    assert u[m..] == [CR, LF] by {
      if m > 0 {
        assert u[m..] == message[m - 2..];
      }
    }
    assert MarkerAt(t, m) by {
      assert t[m..m + 5] == u[m..] + [Dot, CR, LF];
    }
    assert t[2..m + 2] == message;
    NoDotLineStartNoMarker(message);
    NoMarkerBeforeTerminator(message);
    FindFirst(t, 0, m);
    UnstuffKeeps(message, 0);
    assert message[0..] == message;
  }

  /** Adding CR LF starts no line with '.': the new positions hold CR and LF. */
  lemma NoDotLineStartExtended(message: seq<byte>)
    requires NoDotLineStart(message)
    ensures NoDotLineStart(message + [CR, LF])
  {
    var longer := message + [CR, LF];
    forall j | 0 <= j < |longer| && LineStartAt(longer, j)
      ensures longer[j] != Dot
    {
      if j < |message| {
        assert LineStartAt(message, j) by {
          if j >= 2 {
            assert longer[j - 2] == message[j - 2] && longer[j - 1] == message[j - 1];
          }
        }
        assert longer[j] == message[j];
      } else {
        assert longer[j] == [CR, LF][j - |message|];
      }
    }
  }

  /** Before its own last CR LF, a message followed by "." CR LF holds no marker. */
  lemma NoMarkerBeforeTerminator(message: seq<byte>)
    requires EndsWithLineBreak(message) && NoLoneDotLine(message)
    ensures forall j | 0 <= j < |message| :: !MarkerAt([CR, LF] + (message + [Dot, CR, LF]), j)
  {
    var u := [CR, LF] + message;
    var t := [CR, LF] + (message + [Dot, CR, LF]);
    assert t == u + [Dot, CR, LF];
    forall j | 0 <= j < |message|
      ensures !MarkerAt(t, j)
    {
      if j + 5 <= |u| {
        assert t[j..j + 5] == u[j..j + 5];
        assert !MarkerAt(u, j);
      } else {
        var m := |message|;
        assert t[j + 2] == message[j] == message[m - 2..][j - (m - 2)];
        NoDotNoMarker(t, j);
      }
    }
  }

  /** The receiver leaves alone every byte of a message none of whose lines begins with '.'. */
  lemma {:induction false} UnstuffKeeps(message: seq<byte>, i: nat)
    requires NoDotLineStart(message) && i <= |message|
    ensures Unstuff(message[i..], LineStartAt(message, i), i >= 1 && message[i - 1] == CR) == message[i..]
    decreases |message| - i
  {
    if i < |message| {
      var rest := message[i..];
      assert rest[0] == message[i] && rest[1..] == message[i + 1..];
      assert LineStartAt(message, i + 1) == (i >= 1 && message[i - 1] == CR && message[i] == LF);
      UnstuffKeeps(message, i + 1);
    }
  }

  /** A line "." begins with '.', so a message with no line beginning with '.' has no line ".". */
  lemma NoDotLineStartNoMarker(message: seq<byte>)
    requires NoDotLineStart(message)
    ensures NoLoneDotLine(message)
  {
    var t := [CR, LF] + message;
    forall j | 0 <= j < |message| + 2
      ensures !MarkerAt(t, j)
    {
      if j + 5 <= |t| {
        if t[j] == CR && t[j + 1] == LF {
          assert LineStartAt(message, j) by {
            if j >= 2 {
              assert message[j - 2] == t[j] && message[j - 1] == t[j + 1];
            }
          }
          assert t[j + 2] == message[j];
          NoDotNoMarker(t, j);
        } else {
          assert t[j..j + 5][0] == t[j] && t[j..j + 5][1] == t[j + 1];
        }
      }
    }
  }

  /** Before the marker the client appends, the bytes sent hold no marker. */
  lemma NoMarkerBeforeEnd(message: seq<byte>)
    requires EndsWithLineBreak(message) && NoLoneDotLine(message)
    ensures forall j | 0 <= j < |message| + 2 :: !MarkerAt([CR, LF] + (message + EndOfData), j)
  {
    forall j | 0 <= j < |message| + 2
      ensures !MarkerAt([CR, LF] + (message + EndOfData), j)
    {
      if j + 5 <= |message| + 2 {
        NoMarkerInside(message, j);
      } else {
        NoMarkerAcrossEnd(message, j);
      }
    }
  }

  /** A marker that lies inside CR LF + message is not there, in the bytes sent either. */
  lemma NoMarkerInside(message: seq<byte>, j: nat)
    requires NoLoneDotLine(message) && j + 5 <= |message| + 2
    ensures !MarkerAt([CR, LF] + (message + EndOfData), j)
  {
    var t := [CR, LF] + (message + EndOfData);
    assert t[j..j + 5] == ([CR, LF] + message)[j..j + 5];
    assert !MarkerAt([CR, LF] + message, j);
  }

  /**
    * No marker straddles the end of a message that ends with a line break:
    * its third byte would be one of the CR LF CR LF around the end, never a dot.
    */
  lemma NoMarkerAcrossEnd(message: seq<byte>, j: nat)
    requires EndsWithLineBreak(message) && |message| + 2 < j + 5 && j < |message| + 2
    ensures !MarkerAt([CR, LF] + (message + EndOfData), j)
  {
    StraddledByte(message, j + 2);
    NoDotNoMarker([CR, LF] + (message + EndOfData), j);
  }

  /** The bytes CR LF CR LF around the end of a message that ends with a line break. */
  lemma StraddledByte(message: seq<byte>, k: nat)
    requires EndsWithLineBreak(message) && |message| <= k < |message| + 4
    ensures ([CR, LF] + (message + EndOfData))[k] in {CR, LF}
  {
    var t := [CR, LF] + (message + EndOfData);
    var m := |message|;
    if k < 2 {
      assert t[k] == [CR, LF][k];
    } else if k < m + 2 {
      assert t[k] == message[k - 2] == message[m - 2..][k - m];
    } else {
      assert t[k] == EndOfData[k - m - 2];
    }
  }

  /** The marker's third byte is a dot. */
  lemma NoDotNoMarker(t: seq<byte>, j: nat)
    requires j + 2 < |t| && t[j + 2] != Dot
    ensures !MarkerAt(t, j)
  {
    if j + 5 <= |t| {
      assert t[j..j + 5][2] == t[j + 2];
    }
  }

  /** The search stops at the first marker. */
  lemma {:induction false} FindFirst(t: seq<byte>, from: nat, k: nat)
    requires from <= k && MarkerAt(t, k)
    requires forall j | from <= j < k :: !MarkerAt(t, j)
    ensures FindMarker(t, from) == k
    decreases k - from
  {
    if from < k {
      FindFirst(t, from + 1, k);
    }
  }

  /**
    * Without dot-stuffing a message line "." ends the message early: for
    * "a" CR LF "." CR LF "b" CR LF the receiver keeps only the line "a" CR LF.
    */
  lemma LoneDotLineTruncates(message: seq<byte>)
    requires message == [97, CR, LF, Dot, CR, LF, 98, CR, LF]
    ensures Received(message + EndOfData) == [97, CR, LF] != message
  {
    var t := [CR, LF] + (message + EndOfData);
    assert t[3..8] == EndOfData;
    assert !MarkerAt(t, 0) by { assert t[0..5][2] == t[2]; }
    assert !MarkerAt(t, 1) by { assert t[1..6][0] == t[1]; }
    assert !MarkerAt(t, 2) by { assert t[2..7][0] == t[2]; }
    FindFirst(t, 0, 3);
    var kept := t[2..5];
    assert kept == [97, CR, LF] && kept[1..] == [CR, LF] && kept[1..][1..] == [LF];
    assert Unstuff(kept, true, false) == [97] + Unstuff([CR, LF], false, false);
    assert Unstuff([CR, LF], false, false) == [CR] + Unstuff([LF], false, true);
    assert Unstuff([LF], false, true) == [LF] + Unstuff([], true, false);
  }

  /**
    * Without dot-stuffing a line that begins with '.' loses that dot: for
    * ".x" CR LF the receiver keeps "x" CR LF, followed by the empty line the
    * terminator adds.
    */
  lemma LeadingDotLost(message: seq<byte>)
    requires message == [Dot, 120, CR, LF]
    ensures Received(message + EndOfData) == message[1..] + [CR, LF]
  {
    DotLineCut(message);
    DotLineUnstuffed(message);
  }

  /** Where the receiver cuts ".x" CR LF followed by the marker. */
  lemma DotLineCut(message: seq<byte>)
    requires message == [Dot, 120, CR, LF]
    ensures var t := [CR, LF] + (message + EndOfData);
      FindMarker(t, 0) == 6 && t[2..8] == message + [CR, LF]
  {
    var t := [CR, LF] + (message + EndOfData);
    assert t == [CR, LF, Dot, 120, CR, LF, CR, LF, Dot, CR, LF];
    DotLineMarkers(t);
    FindFirst(t, 0, 6);
  }

  /** In CR LF ".x" CR LF CR LF "." CR LF the first marker starts at position 6. */
  lemma DotLineMarkers(t: seq<byte>)
    requires t == [CR, LF, Dot, 120, CR, LF, CR, LF, Dot, CR, LF]
    ensures MarkerAt(t, 6) && forall j | 0 <= j < 6 :: !MarkerAt(t, j)
  {
    assert t[6..11] == EndOfData;
    assert !MarkerAt(t, 0) by { assert t[0..5][3] == t[3]; }
    assert !MarkerAt(t, 1) by { assert t[1..6][0] == t[1]; }
    assert !MarkerAt(t, 2) by { assert t[2..7][0] == t[2]; }
    assert !MarkerAt(t, 3) by { assert t[3..8][0] == t[3]; }
    assert !MarkerAt(t, 4) by { assert t[4..9][2] == t[6]; }
    assert !MarkerAt(t, 5) by { assert t[5..10][0] == t[5]; }
  }

  /** The receiver drops the dot that begins ".x" CR LF CR LF, and only that one. */
  lemma DotLineUnstuffed(message: seq<byte>)
    requires message == [Dot, 120, CR, LF]
    ensures Unstuff(message + [CR, LF], true, false) == message[1..] + [CR, LF]
  {
    var tail := message[1..] + [CR, LF];
    assert (message + [CR, LF])[1..] == tail;
    assert tail[1..] == [CR, LF, CR, LF] && tail[1..][1..] == [LF, CR, LF];
    assert Unstuff(tail, false, false) == [120] + Unstuff([CR, LF, CR, LF], false, false);
    assert Unstuff([CR, LF, CR, LF], false, false) == [CR] + Unstuff([LF, CR, LF], false, true);
    assert Unstuff([LF, CR, LF], false, true) == [LF] + Unstuff([CR, LF], true, false);
    assert Unstuff([CR, LF], true, false) == [CR] + Unstuff([LF], false, true);
    assert Unstuff([LF], false, true) == [LF] + Unstuff([], true, false);
  }
}
