/** How the connection reads its text: the same lines however the text is cut, across the end of the handshake. */
module ConnectionChunks {
  import opened Sequences
  import opened Escape
  import opened QueryProtocol
  import opened ConnectionModel
  import opened ConnectionRuns

  function Received(c: Conn, text: string): Conn { c.(buffer := c.buffer + text) }

  function DataEvents(chunks: seq<string>): (es: seq<Event>)
    ensures |es| == |chunks| && forall i :: 0 <= i < |chunks| ==> es[i] == Data(chunks[i])
  {
    seq(|chunks|, i requires 0 <= i < |chunks| => Data(chunks[i]))
  }

  // ----- the buffer and the rest of the state -----

  lemma SettleIgnoresBuffer(c: Conn, buffer: string, response: Response, at: nat)
    ensures SettleHead(c.(buffer := buffer), response, at) == SettleHead(c, response, at).(buffer := buffer)
  {
  }

  lemma NotifyLineIgnoresBuffer(c: Conn, buffer: string, line: string)
    requires NOTIFY <= line
    ensures HandleLine(c.(buffer := buffer), line) == HandleLine(c, line).(buffer := buffer)
  {
    hide NotificationOf;
    var d := c.(buffer := buffer);
    assert d.lines == c.lines && d.notified == c.notified;
  }

  lemma DataLineIgnoresBuffer(c: Conn, buffer: string, line: string)
    requires !(NOTIFY <= line) && !(ERROR_LINE <= line)
    ensures HandleLine(c.(buffer := buffer), line) == HandleLine(c, line).(buffer := buffer)
  {
    var d := c.(buffer := buffer);
    assert d.lines == c.lines && d.pendingData == c.pendingData;
  }

  lemma RejectIgnoresBuffer(c: Conn, buffer: string, why: Failure)
    ensures RejectHead(c.(buffer := buffer), why) == RejectHead(c, why).(buffer := buffer)
  {
  }

  /** What an error line does, with the gathered data handed over. */
  lemma ErrorLineIs(c: Conn, line: string)
    requires !(NOTIFY <= line) && ERROR_LINE <= line
    ensures var cleared := c.(lines := c.lines + [line], pendingData := []);
            HandleLine(c, line) ==
              match ParseRaw(JoinWith(c.pendingData + [line], LF))
              case None => RejectHead(cleared, Malformed)
              case Some(response) => SettleHead(cleared, response, |c.lines|)
  {
    hide ParseRaw, SettleHead, RejectHead, JoinWith;
  }

  lemma ErrorLineIgnoresBuffer(c: Conn, buffer: string, line: string)
    requires !(NOTIFY <= line) && ERROR_LINE <= line
    ensures HandleLine(c.(buffer := buffer), line) == HandleLine(c, line).(buffer := buffer)
  {
    hide HandleLine, ParseRaw, SettleHead, RejectHead, JoinWith;
    var d := c.(buffer := buffer);
    var cleared := c.(lines := c.lines + [line], pendingData := []);
    ErrorLineIs(c, line);
    ErrorLineIs(d, line);
    assert d.(lines := d.lines + [line], pendingData := []) == cleared.(buffer := buffer);
    RejectIgnoresBuffer(cleared, buffer, Malformed);
    var r := ParseRaw(JoinWith(c.pendingData + [line], LF));
    if r.Some? {
      SettleIgnoresBuffer(cleared, buffer, r.value, |c.lines|);
    }
  }

  lemma HandleLineIgnoresBuffer(c: Conn, buffer: string, line: string)
    ensures HandleLine(c.(buffer := buffer), line) == HandleLine(c, line).(buffer := buffer)
  {
    hide HandleLine;
    if NOTIFY <= line {
      NotifyLineIgnoresBuffer(c, buffer, line);
    } else if ERROR_LINE <= line {
      ErrorLineIgnoresBuffer(c, buffer, line);
    } else {
      DataLineIgnoresBuffer(c, buffer, line);
    }
  }

  lemma HandshakeLineIgnoresBuffer(c: Conn, buffer: string, line: string)
    requires c.phase.Handshaking?
    ensures HandshakeLine(c.(buffer := buffer), line) == HandshakeLine(c, line).(buffer := buffer)
  {
    hide ErrorOfLine;
    var d := c.(buffer := buffer);
    assert d.phase == c.phase && d.written == c.written;
  }

  lemma LineIgnoresBuffer(c: Conn, buffer: string, line: string)
    requires !c.phase.Failed?
    ensures OnLine(c.(buffer := buffer), line) == OnLine(c, line).(buffer := buffer)
  {
    hide HandshakeLine, HandleLine;
    assert c.(buffer := buffer).phase == c.phase;
    if c.phase.Ready? {
      HandleLineIgnoresBuffer(c, buffer, line);
    } else {
      HandshakeLineIgnoresBuffer(c, buffer, line);
    }
  }

  lemma FirstLineOfMore(a: string, b: string)
    requires LF in a
    ensures LF in a + b && SplitOn(a + b, LF)[0] == SplitOn(a, LF)[0]
  {
    FirstLine(a);
    var n := |SplitOn(a, LF)[0]|;
    assert a + b == a[..n] + [LF] + (a[n + 1..] + b);
    SplitPiece(a[..n], a[n + 1..] + b, LF);
  }

  lemma TakeLineOfMore(c: Conn, more: string)
    requires !c.phase.Failed? && LF in c.buffer
    ensures LF in c.buffer + more
    ensures TakeLine(Received(c, more)) == Received(TakeLine(c), more)
  {
    hide OnLine, Trim;
    FirstLine(c.buffer);
    FirstLineOfMore(c.buffer, more);
    var newline := |SplitOn(c.buffer, LF)[0]|;
    assert (c.buffer + more)[..newline] == c.buffer[..newline];
    assert (c.buffer + more)[newline + 1..] == c.buffer[newline + 1..] + more;
    var line := Trim(c.buffer[..newline], IsSpace);
    var rest := c.(buffer := c.buffer[newline + 1..]);
    if line != "" {
      KeepsBuffer(rest, line);
      LineIgnoresBuffer(rest, rest.buffer + more, line);
    }
  }

  /** Text arriving after what is there has been taken does as well as text arriving with it. */
  lemma {:induction false} PumpAppend(c: Conn, more: string)
    ensures !Pump(c).phase.Failed? ==> Pump(Received(Pump(c), more)) == Pump(Received(c, more))
    ensures Pump(c).phase.Failed? ==> Pump(Received(c, more)) == Received(Pump(c), more)
    decreases |c.buffer|
  {
    hide Pump, TakeLine;
    PumpTakes(c);
    PumpTakes(Received(c, more));
    if !c.phase.Failed? && LF in c.buffer {
      TakeLineOfMore(c, more);
      PumpAppend(TakeLine(c), more);
    }
  }

  /** Reading text destroys the socket exactly when it makes the handshake fail. */
  lemma {:induction false} PumpKeepsSocket(c: Conn)
    requires c.destroyed <==> c.phase.Failed?
    ensures Pump(c).destroyed <==> Pump(c).phase.Failed?
    decreases |c.buffer|
  {
    hide Pump, TakeLine;
    PumpTakes(c);
    if !c.phase.Failed? && LF in c.buffer {
      TakeLineKeepsSocket(c);
      PumpKeepsSocket(TakeLine(c));
    }
  }

  lemma SettleKeepsSocket(c: Conn, response: Response, at: nat)
    ensures SettleHead(c, response, at).destroyed == c.destroyed && SettleHead(c, response, at).phase == c.phase
  {
  }

  lemma HandleLineKeepsSocket(c: Conn, line: string)
    ensures HandleLine(c, line).destroyed == c.destroyed && HandleLine(c, line).phase == c.phase
  {
    hide ParseRaw, NotificationOf, SettleHead, JoinWith;
    var r := ParseRaw(JoinWith(c.pendingData + [line], LF));
    if !(NOTIFY <= line) && ERROR_LINE <= line && r.Some? {
      SettleKeepsSocket(c.(lines := c.lines + [line], pendingData := []), r.value, |c.lines|);
    }
  }

  lemma TakeLineKeepsSocket(c: Conn)
    requires !c.phase.Failed? && !c.destroyed && LF in c.buffer
    ensures TakeLine(c).destroyed <==> TakeLine(c).phase.Failed?
  {
    hide ErrorOfLine, HandleLine, Trim;
    FirstLine(c.buffer);
    var newline := |SplitOn(c.buffer, LF)[0]|;
    var line := Trim(c.buffer[..newline], IsSpace);
    if c.phase.Ready? {
      HandleLineKeepsSocket(c.(buffer := c.buffer[newline + 1..]), line);
    }
  }

  /** Everything but the text still unread. */
  predicate SameButBuffer(c: Conn, d: Conn) { c.(buffer := "") == d.(buffer := "") }

  /** However the text is cut into chunks, the connection ends in the same state; only a failed handshake, which
      reads no further, may leave a different rest of the text. */
  lemma {:induction false} ChunkIndependence(chunks: seq<string>)
    ensures var pieces := Run(START, DataEvents(chunks));
            var whole := Pump(Received(START, Flatten(chunks)));
            && SameButBuffer(pieces, whole)
            && (!whole.phase.Failed? ==> pieces == whole)
            && (whole.destroyed <==> whole.phase.Failed?)
  {
    hide Pump;
    var es := DataEvents(chunks);
    if chunks == [] {
      assert Received(START, Flatten(chunks)) == START;
      NothingToPump();
    } else {
      var front, last := chunks[..|chunks| - 1], chunks[|chunks| - 1];
      assert es[..|es| - 1] == DataEvents(front);
      ChunkIndependence(front);
      FlattenConcat(front, [last]);
      assert Flatten([last]) == last + Flatten([last][1..]) == last;
      assert chunks == front + [last];
      var before := Received(START, Flatten(front));
      assert Received(before, last) == Received(START, Flatten(chunks)) by {
        assert START.buffer + Flatten(front) + last == START.buffer + (Flatten(front) + last);
      }
      PumpAppend(before, last);
      PumpKeepsSocket(before);
      PumpKeepsSocket(Received(before, last));
    }
  }

  lemma NothingToPump()
    ensures Pump(START) == START
  {
  }

  // ----- which lines are taken -----

  /** The machine driven by lines alone. */
  function Consume(c: Conn, lines: seq<string>): Conn
    decreases |lines|
  {
    if lines == [] || c.phase.Failed? then c else Consume(OnLine(c, lines[0]), lines[1..])
  }

  function Front<T>(s: seq<T>): seq<T>
    requires s != []
  {
    s[..|s| - 1]
  }

  /** Exactly the non-empty trimmed complete lines are taken, each once and in order, and the unfinished tail stays. */
  lemma {:induction false} PumpTakesLines(c: Conn)
    ensures var pieces := SplitOn(c.buffer, LF);
            && SameButBuffer(Pump(c), Consume(c, CleanLines(Front(pieces))))
            && (!Pump(c).phase.Failed? ==> Pump(c).buffer == pieces[|pieces| - 1])
    decreases |c.buffer|
  {
    hide *;
    var pieces := SplitOn(c.buffer, LF);
    PumpTakes(c);
    if c.phase.Failed? {
      ConsumeFailed(c, CleanLines(Front(pieces)));
      SameBuffer(c, c);
    } else if LF !in c.buffer {
      SplitNothing(c.buffer, LF);
      NoLines(c);
    } else {
      TakeLineConsumes(c);
      PumpTakesLines(TakeLine(c));
      SameThrough(c, CleanLines(Front(SplitOn(TakeLine(c).buffer, LF))), CleanLines(Front(pieces)));
    }
  }

  lemma SameBuffer(c: Conn, d: Conn)
    ensures SameButBuffer(c, d) <==> c.(buffer := "") == d.(buffer := "")
  {
  }

  lemma NoLines(c: Conn)
    ensures CleanLines(Front([c.buffer])) == [] && Consume(c, []) == c && SameButBuffer(c, c)
  {
    assert Front([c.buffer]) == [];
  }

  lemma SameThrough(c: Conn, rest: seq<string>, all: seq<string>)
    requires !c.phase.Failed? && LF in c.buffer
    requires SameButBuffer(Pump(TakeLine(c)), Consume(TakeLine(c), rest))
    requires SameButBuffer(Consume(TakeLine(c), rest), Consume(c, all))
    ensures SameButBuffer(Pump(TakeLine(c)), Consume(c, all))
  {
    hide Pump, TakeLine, Consume;
  }

  /** The pieces of the text, once its first line is off. */
  lemma PiecesAfterFirst(c: Conn)
    requires !c.phase.Failed? && LF in c.buffer
    ensures var newline := |SplitOn(c.buffer, LF)[0]|;
            && newline < |c.buffer| && SplitOn(c.buffer, LF)[0] == c.buffer[..newline]
            && TakeLine(c).buffer == c.buffer[newline + 1..]
    ensures var rest := SplitOn(TakeLine(c).buffer, LF);
            SplitOn(c.buffer, LF) == [SplitOn(c.buffer, LF)[0]] + rest && rest != []
  {
    hide OnLine, Trim, SplitOn;
    FirstLine(c.buffer);
    var newline := |SplitOn(c.buffer, LF)[0]|;
    var line := Trim(c.buffer[..newline], IsSpace);
    if line != "" {
      KeepsBuffer(c.(buffer := c.buffer[newline + 1..]), line);
    }
    assert |SplitOn(c.buffer[newline + 1..], LF)| > 0;
  }

  lemma FrontOfPieces(piece: string, rest: seq<string>)
    requires rest != []
    ensures var line := Trim(piece, IsSpace);
            CleanLines(Front([piece] + rest)) == (if line == "" then [] else [line]) + CleanLines(Front(rest))
    ensures ([piece] + rest)[|rest|] == rest[|rest| - 1]
  {
    hide Trim;
    assert Front([piece] + rest) == [piece] + Front(rest);
    assert ([piece] + Front(rest))[1..] == Front(rest);
    assert [] + CleanLines(Front(rest)) == CleanLines(Front(rest));
  }

  /** Taking one line is consuming it, if there is something on it. */
  lemma TakenIsConsumed(c: Conn, more: seq<string>)
    requires !c.phase.Failed? && LF in c.buffer
    ensures var line := Trim(SplitOn(c.buffer, LF)[0], IsSpace);
            SameButBuffer(Consume(TakeLine(c), more), Consume(c, (if line == "" then [] else [line]) + more))
  {
    hide OnLine, Trim, Consume, SplitOn;
    FirstLine(c.buffer);
    var newline := |SplitOn(c.buffer, LF)[0]|;
    var line := Trim(c.buffer[..newline], IsSpace);
    var rest := c.(buffer := c.buffer[newline + 1..]);
    var lines := (if line == "" then [] else [line]) + more;
    ConsumeIgnoresBuffer(c, rest.buffer, lines);
    if line == "" {
      assert lines == more;
    } else {
      ConsumeStep(rest, lines);
      assert lines[1..] == more;
    }
  }

  lemma TakeLineConsumes(c: Conn)
    requires !c.phase.Failed? && LF in c.buffer
    ensures var rest := SplitOn(TakeLine(c).buffer, LF);
            && SplitOn(c.buffer, LF)[1..] == rest
            && SplitOn(c.buffer, LF)[|SplitOn(c.buffer, LF)| - 1] == rest[|rest| - 1]
            && SameButBuffer(Consume(TakeLine(c), CleanLines(Front(rest))),
                             Consume(c, CleanLines(Front(SplitOn(c.buffer, LF)))))
  {
    hide TakeLine, Trim, Consume, SplitOn, CleanLines, Front, SameButBuffer;
    PiecesAfterFirst(c);
    var piece := SplitOn(c.buffer, LF)[0];
    var rest := SplitOn(TakeLine(c).buffer, LF);
    assert ([piece] + rest)[1..] == rest;
    FrontOfPieces(piece, rest);
    TakenIsConsumed(c, CleanLines(Front(rest)));
  }

  lemma ConsumeStep(c: Conn, lines: seq<string>)
    requires lines != [] && !c.phase.Failed?
    ensures Consume(c, lines) == Consume(OnLine(c, lines[0]), lines[1..])
  {
  }

  lemma {:induction false} ConsumeIgnoresBuffer(c: Conn, buffer: string, lines: seq<string>)
    ensures Consume(c.(buffer := buffer), lines) == Consume(c, lines).(buffer := buffer)
    decreases |lines|
  {
    hide OnLine;
    if lines != [] && !c.phase.Failed? {
      LineIgnoresBuffer(c, buffer, lines[0]);
      ConsumeIgnoresBuffer(OnLine(c, lines[0]), buffer, lines[1..]);
    }
  }

  // ----- the handshake, as a property of the lines -----

  predicate IsWelcome(line: string) { WELCOME <= line }

  predicate IsOk(line: string) { ERROR_LINE <= line && ErrorOfLine(line).id == "0" }

  /** The banner, `k` lines of welcome, and two positive answers. */
  predicate Succeeds(lines: seq<string>, k: nat) {
    && |lines| >= k + 3
    && lines[0] == BANNER
    && (forall i :: 1 <= i <= k ==> IsWelcome(lines[i]))
    && IsOk(lines[k + 1]) && IsOk(lines[k + 2])
  }

  const AFTER_BANNER: Conn := START.(phase := Handshaking(true, false), written := [Login])
  const AFTER_LOGIN: Conn := START.(phase := Handshaking(true, true), written := [Login, Use])
  const CONNECTED: Conn := START.(phase := Ready, connected := true, written := [Login, Use])

  lemma WelcomeIsNoError(line: string)
    requires IsWelcome(line)
    ensures !(ERROR_LINE <= line)
  {
    assert line[0] == WELCOME[0];
    assert ERROR_LINE[0] != WELCOME[0];
  }

  lemma ConsumeFailed(c: Conn, lines: seq<string>)
    requires c.phase.Failed?
    ensures Consume(c, lines) == c
  {
  }

  lemma {:induction false} ReadyStays(c: Conn, lines: seq<string>)
    requires c.phase.Ready?
    ensures Consume(c, lines).phase.Ready?
    decreases |lines|
  {
    if lines != [] {
      hide HandleLine;
      HandleLineKeepsSocket(c, lines[0]);
      ReadyStays(OnLine(c, lines[0]), lines[1..]);
    }
  }

  /** After the banner: ready exactly after some welcome lines and two positive answers. */
  lemma {:induction false} AfterBanner(lines: seq<string>) returns (k: nat)
    ensures Consume(AFTER_BANNER, lines).phase.Ready? ==>
              && k + 2 <= |lines| && (forall i :: 0 <= i < k ==> IsWelcome(lines[i]))
              && IsOk(lines[k]) && IsOk(lines[k + 1])
              && Consume(AFTER_BANNER, lines) == Consume(CONNECTED, lines[k + 2..])
    decreases |lines|
  {
    hide ErrorOfLine, HandleLine;
    k := 0;
    if lines == [] {
    } else if IsWelcome(lines[0]) {
      assert OnLine(AFTER_BANNER, lines[0]) == AFTER_BANNER;
      var rest := AfterBanner(lines[1..]);
      k := rest + 1;
      if Consume(AFTER_BANNER, lines).phase.Ready? {
        assert forall i :: 0 < i < |lines| ==> lines[i] == lines[1..][i - 1];
        assert lines[1..][rest + 2..] == lines[k + 2..];
      }
    } else {
      hide Consume;
      ConsumeStep(AFTER_BANNER, lines);
      var next := OnLine(AFTER_BANNER, lines[0]);
      if !IsOk(lines[0]) {
        ConsumeFailed(next, lines[1..]);
      } else {
        assert next == AFTER_LOGIN by {
          assert [Login] + [Use] == [Login, Use];
        }
        AfterLogin(lines[1..]);
        if |lines| > 1 {
          assert lines[1..][1..] == lines[2..];
        }
      }
    }
  }

  lemma AfterLogin(lines: seq<string>)
    ensures Consume(AFTER_LOGIN, lines).phase.Ready? ==>
              |lines| > 0 && IsOk(lines[0]) && Consume(AFTER_LOGIN, lines) == Consume(CONNECTED, lines[1..])
    ensures |lines| > 0 && IsOk(lines[0]) ==> Consume(AFTER_LOGIN, lines) == Consume(CONNECTED, lines[1..])
  {
    hide ErrorOfLine, HandleLine;
    if lines != [] {
      var next := OnLine(AFTER_LOGIN, lines[0]);
      if !IsOk(lines[0]) {
        ConsumeFailed(next, lines[1..]);
      }
    }
  }

  lemma {:induction false} WelcomesPass(lines: seq<string>, k: nat)
    requires k + 2 <= |lines| && (forall i :: 0 <= i < k ==> IsWelcome(lines[i]))
    requires IsOk(lines[k]) && IsOk(lines[k + 1])
    ensures Consume(AFTER_BANNER, lines) == Consume(CONNECTED, lines[k + 2..])
    decreases k
  {
    hide ErrorOfLine, HandleLine, Consume;
    ConsumeStep(AFTER_BANNER, lines);
    if k == 0 {
      if IsWelcome(lines[0]) {
        WelcomeIsNoError(lines[0]);
      }
      assert [Login] + [Use] == [Login, Use];
      AfterLogin(lines[1..]);
      assert lines[1..][1..] == lines[2..];
    } else {
      WelcomesPass(lines[1..], k - 1);
      assert lines[1..][k + 1..] == lines[k + 2..];
    }
  }

  /** The handshake succeeds exactly when the lines start with a banner, welcomes and two positive answers; it then
      has written login and use once each, and every later line goes to the connected machine. */
  lemma {:induction false} HandshakeSucceeds(lines: seq<string>)
    ensures Consume(START, lines).phase.Ready? <==>
              exists k: nat :: Succeeds(lines, k)
    ensures forall k: nat :: Succeeds(lines, k) ==>
              Consume(START, lines) == Consume(CONNECTED, lines[k + 3..])
  {
    hide ErrorOfLine, HandleLine, Consume;
    if lines == [] {
      assert Consume(START, lines) == START by { ConsumeNothing(); }
    } else {
      ConsumeStep(START, lines);
      var next := OnLine(START, lines[0]);
      if lines[0] != BANNER {
        ConsumeFailed(next, lines[1..]);
      } else {
        assert next == AFTER_BANNER by {
          assert [] + [Login] == [Login];
        }
        var k := AfterBanner(lines[1..]);
        if Consume(START, lines).phase.Ready? {
          ShiftedHandshake(lines, k);
          assert Succeeds(lines, k);
        }
        forall k: nat | Succeeds(lines, k)
          ensures Consume(START, lines) == Consume(CONNECTED, lines[k + 3..]) && Consume(START, lines).phase.Ready?
        {
          ShiftedHandshake(lines, k);
          WelcomesPass(lines[1..], k);
          assert lines[1..][k + 2..] == lines[k + 3..];
          ReadyStays(CONNECTED, lines[k + 3..]);
        }
      }
    }
  }

  /** The non-empty trimmed complete lines of a text. */
  function LinesOf(text: string): seq<string> {
    CleanLines(Front(SplitOn(text, LF)))
  }

  /** However the text is cut, the connection ends ready exactly when its lines start with a good handshake, and,
      unless the handshake failed, in the state those lines alone lead to, with the unfinished tail kept. */
  lemma {:induction false} ConnectedByItsLines(chunks: seq<string>)
    ensures var c := Run(START, DataEvents(chunks));
            var text := Flatten(chunks);
            && (c.phase.Ready? <==> exists k: nat :: Succeeds(LinesOf(text), k))
            && (!c.phase.Failed? ==>
                  c == Consume(START, LinesOf(text)).(buffer := SplitOn(text, LF)[|SplitOn(text, LF)| - 1]))
  {
    hide Run, Pump, Consume, Succeeds, CleanLines, SplitOn;
    var text := Flatten(chunks);
    ChunkIndependence(chunks);
    HandshakeSucceeds(LinesOf(text));
    assert START.buffer + text == text;
    PumpTakesLines(Received(START, text));
    ConsumeIgnoresBuffer(START, text, LinesOf(text));
  }

  lemma ConsumeNothing()
    ensures Consume(START, []) == START
  {
  }

  lemma ShiftedHandshake(lines: seq<string>, k: nat)
    requires k + 3 <= |lines| && lines[0] == BANNER
    ensures Succeeds(lines, k) <==>
              (forall i :: 0 <= i < k ==> IsWelcome(lines[1..][i])) && IsOk(lines[1..][k]) && IsOk(lines[1..][k + 1])
  {
    hide IsWelcome, IsOk;
    var tail := lines[1..];
    assert forall i :: 1 <= i <= k + 2 ==> lines[i] == tail[i - 1];
    assert forall i :: 0 <= i <= k + 1 ==> tail[i] == lines[i + 1];
  }
}
