/** What every run of the connection keeps: the queue is answered in order, and each answer is its own. */
module ConnectionRuns {
  import opened Sequences
  import opened Escape
  import opened QueryProtocol
  import opened ConnectionModel

  // ----- what the lines received say, independently of the machine -----

  /** A line as the buffer yields it. */
  predicate CleanLine(line: string) {
    line != "" && Trimmed(line, IsSpace) && LF !in line
  }

  /** The data lines among the first `k`, since the last `error` line before them. */
  function DataSince(lines: seq<string>, k: nat): seq<string>
    requires k <= |lines|
  {
    if k == 0 then []
    else
      var line := lines[k - 1];
      if NOTIFY <= line then DataSince(lines, k - 1)
      else if ERROR_LINE <= line then []
      else DataSince(lines, k - 1) + [line]
  }

  /** The entries of several data lines, in order. */
  function EntriesOfAll(data: seq<string>): seq<Record> {
    if data == [] then [] else EntriesOf(data[0]) + EntriesOfAll(data[1..])
  }

  /** The answer an `error` line completes. */
  function ResponseAt(lines: seq<string>, k: nat): Response
    requires k < |lines|
  {
    Response(EntriesOfAll(DataSince(lines, k)), ErrorOfLine(lines[k]), [])
  }

  function NotificationsIn(lines: seq<string>): seq<Notification> {
    if lines == [] then []
    else
      var line := lines[|lines| - 1];
      NotificationsIn(lines[..|lines| - 1]) + (if NOTIFY <= line then [NotificationOf(line)] else [])
  }

  predicate IsData(line: string) { CleanLine(line) && !(NOTIFY <= line) && !(ERROR_LINE <= line) }

  lemma {:induction false} CleanLinesStay(lines: seq<string>)
    requires forall i :: 0 <= i < |lines| ==> CleanLine(lines[i])
    ensures CleanLines(lines) == lines
  {
    if lines != [] {
      CleanLinesStay(lines[1..]);
      TrimOfTrimmed(lines[0], IsSpace);
    }
  }

  lemma {:induction false} DataThenError(data: seq<string>, error: string)
    requires forall i :: 0 <= i < |data| ==> IsData(data[i])
    requires ERROR_LINE <= error
    ensures ParseLines(data + [error]) == Some(Response(EntriesOfAll(data), ErrorOfLine(error), []))
    decreases |data|
  {
    hide EntriesOf, ErrorOfLine, ParseLines, NotificationOf, CleanLine;
    var lines := data + [error];
    ParseLinesStep(lines);
    if data != [] {
      assert IsData(data[0]) && lines[0] == data[0];
      assert lines[1..] == data[1..] + [error];
      DataThenError(data[1..], error);
      var none: seq<Notification> := [];
      assert none + none == none;
    }
  }

  /** What is handed to the response parser always ends in an error line, so parsing never fails. */
  lemma {:induction false} ParsingNeverFails(data: seq<string>, error: string)
    requires forall i :: 0 <= i < |data| ==> IsData(data[i])
    requires CleanLine(error) && ERROR_LINE <= error
    ensures ParseRaw(JoinWith(data + [error], LF)) == Some(Response(EntriesOfAll(data), ErrorOfLine(error), []))
  {
    hide EntriesOf, ErrorOfLine, ParseLines, NotificationOf, EntriesOfAll;
    var lines := data + [error];
    forall i | 0 <= i < |lines| ensures CleanLine(lines[i]) {
      assert i < |data| ==> IsData(data[i]);
    }
    SplitOfJoin(lines, LF);
    CleanLinesStay(lines);
    DataThenError(data, error);
  }

  lemma {:induction false} DataIsData(lines: seq<string>, k: nat)
    requires k <= |lines| && forall i :: 0 <= i < |lines| ==> CleanLine(lines[i])
    ensures forall i :: 0 <= i < |DataSince(lines, k)| ==> IsData(DataSince(lines, k)[i])
  {
    hide CleanLine;
    if k > 0 {
      DataIsData(lines, k - 1);
    }
  }

  lemma {:induction false} DataSincePrefix(lines: seq<string>, line: string, k: nat)
    requires k <= |lines|
    ensures DataSince(lines + [line], k) == DataSince(lines, k)
  {
    if k > 0 {
      DataSincePrefix(lines, line, k - 1);
    }
  }

  // ----- the invariant -----

  /** The commands among what was written, in order. */
  function Sent(ws: seq<Write>): seq<Write> {
    if ws == [] then []
    else Sent(ws[..|ws| - 1]) + (if ws[|ws| - 1].Command? then [ws[|ws| - 1]] else [])
  }

  function Answered(settled: seq<Settlement>): (n: nat)
    ensures n <= |settled|
  {
    if settled == [] then 0
    else Answered(settled[..|settled| - 1]) + (if settled[|settled| - 1].outcome.Resolved? then 1 else 0)
  }

  /** Commands settle once each, in the order they were enqueued. */
  predicate InOrder(c: Conn) {
    && |c.enqueued| == |c.settled| + |c.queue|
    && (forall i :: 0 <= i < |c.settled| ==> c.settled[i].id == i)
    && (forall j :: 0 <= j < |c.queue| ==>
          c.queue[j].id == |c.settled| + j && c.queue[j].text == c.enqueued[|c.settled| + j])
  }

  /** What was written is a prefix of what was enqueued, at most one command ahead of the answers. */
  predicate OnTheWire(c: Conn) {
    && |Sent(c.written)| <= |c.enqueued|
    && (forall i :: 0 <= i < |Sent(c.written)| ==> Sent(c.written)[i] == Command(i, c.enqueued[i]))
    && (forall i :: 0 <= i < |c.settled| ==> (c.settled[i].outcome.Resolved? <==> i < Answered(c.settled)))
    && Answered(c.settled) <= |Sent(c.written)| <= Answered(c.settled) + 1
  }

  /** A resolved answer is the one completed by an error line received after the command was written. */
  predicate Faithful(lines: seq<string>, o: Outcome) {
    o.Resolved? ==>
      o.sentAt <= o.at < |lines| && !(NOTIFY <= lines[o.at]) && ERROR_LINE <= lines[o.at]
      && o.response == ResponseAt(lines, o.at)
  }

  /** The answers match the lines received. */
  predicate Answers(c: Conn) {
    && (forall i :: 0 <= i < |c.lines| ==> CleanLine(c.lines[i]))
    && c.pendingData == DataSince(c.lines, |c.lines|)
    && c.notified == NotificationsIn(c.lines)
    && (forall i :: 0 <= i < |c.settled| ==> Faithful(c.lines, c.settled[i].outcome))
    && (forall i, j :: 0 <= i < j < |c.settled| && c.settled[j].outcome.Resolved? ==>
          c.settled[i].outcome.Resolved? && c.settled[i].outcome.at < c.settled[j].outcome.sentAt)
  }

  predicate Base(c: Conn) {
    && InOrder(c) && OnTheWire(c) && Answers(c)
    && (!c.hasSocket ==> c.destroyed)
    && (!c.phase.Ready? ==> c.enqueued == [])
    && (c.phase.Failed? ==> c.destroyed)
  }

  /** Only the head of the queue is armed; on a live socket it is also the one command still unanswered. */
  predicate Served(c: Conn) {
    && (forall j :: 0 <= j < |c.queue| ==> (c.queue[j].armed <==> j == 0))
    && (!c.destroyed ==> Waiting(c) && |Sent(c.written)| == |c.settled| + (if c.queue == [] then 0 else 1))
  }

  /** On a live socket nothing was rejected, and the head was sent after every answer so far. */
  predicate Waiting(c: Conn) {
    && Answered(c.settled) == |c.settled|
    && (c.queue != [] && c.queue[0].armed ==>
          c.queue[0].sentAt <= |c.lines|
          && forall i :: 0 <= i < |c.settled| && c.settled[i].outcome.Resolved? ==>
               c.settled[i].outcome.at < c.queue[0].sentAt)
  }

  predicate Inv(c: Conn) { Base(c) && Served(c) }

  // ----- the queue operations keep it -----

  lemma AnsweredBefore(c: Conn)
    requires Answers(c)
    ensures forall i :: 0 <= i < |c.settled| && c.settled[i].outcome.Resolved? ==>
              c.settled[i].outcome.at < |c.lines|
  {
    hide ResponseAt, CleanLine, NotificationsIn, DataSince;
    forall i | 0 <= i < |c.settled| && c.settled[i].outcome.Resolved?
      ensures c.settled[i].outcome.at < |c.lines|
    {
      assert Faithful(c.lines, c.settled[i].outcome);
    }
  }

  lemma SendHeadKeeps(c: Conn)
    requires Base(c) && c.hasSocket && c.phase.Ready?
    requires forall j :: 0 <= j < |c.queue| ==> !c.queue[j].armed
    requires !c.destroyed ==> Answered(c.settled) == |c.settled| && |Sent(c.written)| == |c.settled|
    ensures Inv(SendHead(c))
  {
    hide Answers, Sent, Answered;
    AnsweredBefore(c);
    if c.queue != [] {
      SentOneMore(c.written, Command(c.queue[0].id, c.queue[0].text));
      SendHeadAnswers(c);
    }
  }

  lemma SentOneMore(ws: seq<Write>, w: Write)
    ensures Sent(ws + [w]) == if w.Command? then Sent(ws) + [w] else Sent(ws)
  {
    assert (ws + [w])[..|ws|] == ws;
  }

  lemma SendHeadAnswers(c: Conn)
    requires Answers(c)
    ensures Answers(SendHead(c))
  {
    hide Faithful, CleanLine, NotificationsIn, DataSince;
  }

  lemma SettleHeadKeeps(c: Conn, at: nat)
    requires Base(c) && Served(c) && !c.destroyed && c.phase.Ready?
    requires at == |c.lines| - 1 && !(NOTIFY <= c.lines[at]) && ERROR_LINE <= c.lines[at]
    requires c.queue != [] ==> c.queue[0].sentAt <= at
    ensures Inv(SettleHead(c, ResponseAt(c.lines, at), at))
  {
    hide CleanLine, ResponseAt, DataSince, NotificationsIn;
    if c.queue != [] {
      var s := Settlement(c.queue[0].id, Resolved(ResponseAt(c.lines, at), at, c.queue[0].sentAt));
      var popped := c.(queue := c.queue[1..], settled := c.settled + [s]);
      assert popped.settled[..|c.settled|] == c.settled;
      SendHeadKeeps(popped);
    }
  }

  lemma RejectHeadKeeps(c: Conn, why: Failure)
    requires Base(c)
    ensures Base(RejectHead(c, why))
  {
    hide CleanLine, ResponseAt, DataSince, NotificationsIn;
    if c.queue != [] {
      var settled := RejectHead(c, why).settled;
      assert settled[..|c.settled|] == c.settled;
    }
  }

  lemma {:induction false} FailAllKeeps(c: Conn, why: Failure)
    requires Base(c)
    ensures Base(FailAll(c, why)) && FailAll(c, why).queue == []
    ensures FailAll(c, why).phase == c.phase
    decreases |c.queue|
  {
    hide Base;
    if c.queue != [] {
      RejectHeadKeeps(c, why);
      FailAllKeeps(RejectHead(c, why), why);
    }
  }

  lemma EmptiedAndDestroyed(c: Conn)
    requires Base(c) && c.queue == []
    ensures Inv(c.(destroyed := true))
  {
    hide CleanLine, ResponseAt, DataSince, NotificationsIn, Sent, Answered;
  }

  lemma EnqueueKeeps(c: Conn, text: string)
    requires Inv(c) && c.phase.Ready? && c.hasSocket
    ensures Inv(Enqueue(c, text))
  {
    hide CleanLine, ResponseAt, DataSince, NotificationsIn, Sent, Answered;
    var more := c.(queue := c.queue + [Pending(|c.enqueued|, text, false, 0)], enqueued := c.enqueued + [text]);
    assert Base(more);
    if |more.queue| == 1 {
      SendHeadKeeps(more);
    }
  }

  // ----- lines keep it -----

  /** Receiving a line changes nothing about the answers already given. */
  lemma LineReceived(c: Conn, line: string)
    requires Base(c) && CleanLine(line)
    ensures forall i :: 0 <= i < |c.settled| ==> Faithful(c.lines + [line], c.settled[i].outcome)
    ensures DataSince(c.lines + [line], |c.lines|) == c.pendingData
    ensures NotificationsIn(c.lines + [line]) ==
              c.notified + (if NOTIFY <= line then [NotificationOf(line)] else [])
    ensures forall i :: 0 <= i < |c.pendingData| ==> IsData(c.pendingData[i])
  {
    hide CleanLine, EntriesOfAll, NotificationOf, ErrorOfLine;
    var lines := c.lines + [line];
    assert lines[..|c.lines|] == c.lines;
    DataSincePrefix(c.lines, line, |c.lines|);
    DataIsData(c.lines, |c.lines|);
    forall i | 0 <= i < |c.settled| ensures Faithful(lines, c.settled[i].outcome) {
      var o := c.settled[i].outcome;
      assert Faithful(c.lines, o);
      if o.Resolved? {
        DataSincePrefix(c.lines, line, o.at);
      }
    }
  }

  lemma HandleLineKeeps(c: Conn, line: string)
    requires Inv(c) && !c.destroyed && c.phase.Ready? && CleanLine(line)
    ensures Inv(HandleLine(c, line)) && !HandleLine(c, line).destroyed && HandleLine(c, line).phase.Ready?
  {
    hide Inv, CleanLine, NotificationOf, ParseRaw, SettleHead;
    if NOTIFY <= line {
      NotifyLineKeeps(c, line);
    } else if ERROR_LINE <= line {
      ErrorLineKeeps(c, line);
    } else {
      DataLineKeeps(c, line);
    }
  }

  /** A further line leaves the queue and the wire as they are. */
  lemma LineLeavesQueue(c: Conn, lines: seq<string>, data: seq<string>, notified: seq<Notification>)
    requires Inv(c) && |c.lines| <= |lines|
    requires Answers(c.(lines := lines, pendingData := data, notified := notified))
    ensures Inv(c.(lines := lines, pendingData := data, notified := notified))
  {
    hide Answers, Sent, Answered;
  }

  lemma LineAnswers(c: Conn, line: string, data: seq<string>, notified: seq<Notification>)
    requires Base(c) && CleanLine(line)
    requires data == DataSince(c.lines + [line], |c.lines| + 1) && notified == NotificationsIn(c.lines + [line])
    ensures Answers(c.(lines := c.lines + [line], pendingData := data, notified := notified))
  {
    hide InOrder, OnTheWire, CleanLine, Faithful, NotificationsIn, DataSince;
    LineReceived(c, line);
  }

  lemma NotifyLineKeeps(c: Conn, line: string)
    requires Inv(c) && CleanLine(line) && NOTIFY <= line
    ensures Inv(c.(lines := c.lines + [line], notified := c.notified + [NotificationOf(line)]))
  {
    hide InOrder, OnTheWire, Served, CleanLine, Faithful, NotificationOf, NotificationsIn, DataSince;
    LineReceived(c, line);
    SinceLast(c.lines + [line]);
    LineAnswers(c, line, c.pendingData, c.notified + [NotificationOf(line)]);
    LineLeavesQueue(c, c.lines + [line], c.pendingData, c.notified + [NotificationOf(line)]);
  }

  lemma DataLineKeeps(c: Conn, line: string)
    requires Inv(c) && CleanLine(line) && !(NOTIFY <= line) && !(ERROR_LINE <= line)
    ensures Inv(c.(lines := c.lines + [line], pendingData := c.pendingData + [line]))
  {
    hide InOrder, OnTheWire, Served, CleanLine, Faithful, NotificationsIn, DataSince;
    LineReceived(c, line);
    SinceLast(c.lines + [line]);
    assert c.notified + [] == c.notified;
    LineAnswers(c, line, c.pendingData + [line], c.notified);
    LineLeavesQueue(c, c.lines + [line], c.pendingData + [line], c.notified);
  }

  /** The line as received, with the gathered data handed to the parser. */
  lemma ErrorLineCleared(c: Conn, line: string)
    requires Inv(c) && CleanLine(line) && !(NOTIFY <= line) && ERROR_LINE <= line
    ensures Inv(c.(lines := c.lines + [line], pendingData := []))
  {
    hide InOrder, OnTheWire, Served, CleanLine, Faithful, NotificationsIn, DataSince;
    LineReceived(c, line);
    SinceLast(c.lines + [line]);
    assert c.notified + [] == c.notified;
    LineAnswers(c, line, [], c.notified);
    LineLeavesQueue(c, c.lines + [line], [], c.notified);
  }

  lemma ErrorLineKeeps(c: Conn, line: string)
    requires Inv(c) && !c.destroyed && c.phase.Ready? && CleanLine(line)
    requires !(NOTIFY <= line) && ERROR_LINE <= line
    ensures Inv(HandleLine(c, line)) && !HandleLine(c, line).destroyed && HandleLine(c, line).phase.Ready?
  {
    hide CleanLine, EntriesOfAll, ErrorOfLine, ParseRaw, InOrder, OnTheWire, Faithful, DataSince, NotificationsIn;
    LineReceived(c, line);
    ErrorLineCleared(c, line);
    ParsingNeverFails(c.pendingData, line);
    SettleHeadKeeps(c.(lines := c.lines + [line], pendingData := []), |c.lines|);
  }

  lemma SinceLast(lines: seq<string>)
    requires lines != []
    ensures var k := |lines| - 1;
            DataSince(lines, |lines|) ==
              if NOTIFY <= lines[k] then DataSince(lines, k)
              else if ERROR_LINE <= lines[k] then []
              else DataSince(lines, k) + [lines[k]]
  {
  }

  lemma HandshakeLineKeeps(c: Conn, line: string)
    requires Inv(c) && !c.destroyed && c.phase.Handshaking?
    ensures Inv(HandshakeLine(c, line))
    ensures HandshakeLine(c, line).destroyed ==> HandshakeLine(c, line).phase.Failed?
  {
    hide Inv, ErrorOfLine, FailHandshake;
    FailHandshakeKeeps(c);
    WriteKeeps(c, Login);
    WriteKeeps(c, Use);
    AdvanceKeeps(c.(written := c.written + [Login]), Handshaking(true, c.phase.loginDone), c.connected);
    AdvanceKeeps(c.(written := c.written + [Use]), Handshaking(true, true), c.connected);
    AdvanceKeeps(c, Ready, true);
  }

  lemma WriteKeeps(c: Conn, w: Write)
    requires Inv(c) && !w.Command?
    ensures Inv(c.(written := c.written + [w]))
  {
    hide CleanLine, Faithful, DataSince, NotificationsIn, Answered;
    assert (c.written + [w])[..|c.written|] == c.written;
  }

  lemma AdvanceKeeps(c: Conn, phase: Phase, connected: bool)
    requires Inv(c) && c.phase.Handshaking? && !phase.Failed?
    ensures Inv(c.(phase := phase, connected := connected))
  {
    hide CleanLine, Faithful, DataSince, NotificationsIn, Answered, Sent;
  }

  lemma {:induction false} PumpKeeps(c: Conn)
    requires Inv(c) && (c.destroyed ==> c.phase.Failed?)
    ensures Inv(Pump(c))
    decreases |c.buffer|
  {
    hide *;
    PumpTakes(c);
    if !c.phase.Failed? && LF in c.buffer {
      TakeLineKeeps(c);
      PumpKeeps(TakeLine(c));
    }
  }

  lemma TakeLineKeeps(c: Conn)
    requires Inv(c) && !c.destroyed && !c.phase.Failed? && LF in c.buffer
    ensures Inv(TakeLine(c)) && (TakeLine(c).destroyed ==> TakeLine(c).phase.Failed?)
  {
    hide Inv, CleanLine, OnLine, Trim;
    FirstLine(c.buffer);
    var newline := |SplitOn(c.buffer, LF)[0]|;
    var line := Trim(c.buffer[..newline], IsSpace);
    var rest := c.(buffer := c.buffer[newline + 1..]);
    BufferIrrelevant(c, rest.buffer);
    if line != "" {
      TakenLineIsClean(c.buffer[..newline]);
      LineKeeps(rest, line);
    }
  }

  lemma TakenLineIsClean(piece: string)
    requires LF !in piece && Trim(piece, IsSpace) != ""
    ensures CleanLine(Trim(piece, IsSpace))
  {
    TrimIsTrimmed(piece, IsSpace);
  }

  lemma BufferIrrelevant(c: Conn, buffer: string)
    requires Inv(c)
    ensures Inv(c.(buffer := buffer))
  {
    hide CleanLine, ResponseAt, DataSince, NotificationsIn, Sent, Answered;
  }

  lemma LineKeeps(c: Conn, line: string)
    requires Inv(c) && !c.destroyed && CleanLine(line)
    ensures !c.phase.Failed?
    ensures Inv(OnLine(c, line)) && (OnLine(c, line).destroyed ==> OnLine(c, line).phase.Failed?)
  {
    hide CleanLine, HandleLine;
    assert !c.phase.Failed?;
    if c.phase.Handshaking? {
      HandshakeLineKeeps(c, line);
    } else {
      HandleLineKeeps(c, line);
    }
  }

  // ----- every event keeps it, hence every run -----

  lemma StepKeeps(c: Conn, e: Event)
    requires Inv(c)
    ensures Inv(Step(c, e))
  {
    match e {
      case Data(chunk) =>
        if !c.destroyed {
          hide Inv, Pump;
          BufferIrrelevant(c, c.buffer + chunk);
          PumpKeeps(c.(buffer := c.buffer + chunk));
        }
      case Request(text) =>
        if c.phase.Ready? && c.hasSocket {
          EnqueueKeeps(c, text);
        }
      case ConnectTimeout =>
        if c.phase.Handshaking? {
          FailHandshakeKeeps(c);
        }
      case CommandTimeout =>
        FailAllKeeps(c, TimedOut);
        EmptiedAndDestroyed(FailAll(c, TimedOut));
      case SocketError =>
        if c.phase.Handshaking? {
          FailHandshakeKeeps(c);
        }
        var d := if c.phase.Handshaking? then FailHandshake(c) else c;
        FailAllKeeps(d, SocketFailure);
        EmptiedAndDestroyed(FailAll(d, SocketFailure));
      case SocketClose =>
        DisconnectKeeps(c);
        FailAllKeeps(c.(connected := false), SocketClosed);
        EmptiedAndDestroyed(FailAll(c.(connected := false), SocketClosed));
      case Close =>
        CloseKeeps(c);
    }
  }

  lemma FailHandshakeKeeps(c: Conn)
    requires Inv(c) && c.phase.Handshaking?
    ensures Inv(FailHandshake(c)) && FailHandshake(c).phase.Failed?
  {
    hide CleanLine, ResponseAt, DataSince, NotificationsIn, Sent, Answered;
  }

  lemma DisconnectKeeps(c: Conn)
    requires Base(c)
    ensures Base(c.(connected := false))
  {
    hide CleanLine, ResponseAt, DataSince, NotificationsIn, Sent, Answered;
  }

  lemma CloseKeeps(c: Conn)
    requires Inv(c)
    ensures Inv(Step(c, Close))
  {
    hide CleanLine, Faithful, DataSince, NotificationsIn, Answered, Sent;
    WriteKeeps(c, Quit);
  }

  lemma StartKeeps()
    ensures Inv(START)
  {
  }

  /** Every reachable state keeps the queue in order, on the wire, faithfully answered and served. */
  lemma {:induction false} RunKeeps(es: seq<Event>)
    ensures Inv(Run(START, es))
  {
    hide Inv, Step;
    if es == [] {
      StartKeeps();
    } else {
      RunKeeps(es[..|es| - 1]);
      StepKeeps(Run(START, es[..|es| - 1]), es[|es| - 1]);
    }
  }

  // ----- what this means for a caller -----

  /** No stall: on a live socket a waiting queue has its head written, last and alone, and its timer armed. */
  lemma {:induction false} NoQueueStall(es: seq<Event>)
    ensures var c := Run(START, es);
            !c.destroyed && c.queue != [] ==>
              && c.queue[0].armed
              && |Sent(c.written)| == |c.settled| + 1
              && Sent(c.written)[|c.settled|] == Command(c.queue[0].id, c.queue[0].text)
  {
    hide Step, Run, Answers, Sent, Answered;
    RunKeeps(es);
  }

  /** Answers: each resolved command was written, is answered in order, and by the lines received for it. */
  lemma {:induction false} AnswersInOrder(es: seq<Event>, i: nat)
    requires i < |Run(START, es).settled|
    ensures var c := Run(START, es);
            var o := c.settled[i].outcome;
            && c.settled[i].id == i && i < |c.enqueued|
            && (o.Resolved? ==>
                  && i < |Sent(c.written)| && Sent(c.written)[i] == Command(i, c.enqueued[i])
                  && o.sentAt <= o.at < |c.lines| && ERROR_LINE <= c.lines[o.at]
                  && o.response == ResponseAt(c.lines, o.at)
                  && (i > 0 ==> c.settled[i - 1].outcome.Resolved? && c.settled[i - 1].outcome.at < o.sentAt))
  {
    hide Step, Run, ResponseAt, CleanLine, DataSince, NotificationsIn, Sent, Answered;
    RunKeeps(es);
    var c := Run(START, es);
    assert Faithful(c.lines, c.settled[i].outcome);
  }

  /** What an event may change of the record of a run: it only ever grows. */
  predicate Extends(c: Conn, d: Conn) {
    c.enqueued <= d.enqueued && c.settled <= d.settled && c.lines <= d.lines && c.written <= d.written
    && c.notified <= d.notified
  }

  lemma {:induction false} FailAllExtends(c: Conn, why: Failure)
    ensures Extends(c, FailAll(c, why))
    decreases |c.queue|
  {
    if c.queue != [] {
      FailAllExtends(RejectHead(c, why), why);
    }
  }

  lemma {:induction false} PumpExtends(c: Conn)
    ensures Extends(c, Pump(c))
    decreases |c.buffer|
  {
    hide Pump, TakeLine;
    PumpTakes(c);
    if !c.phase.Failed? && LF in c.buffer {
      TakeLineExtends(c);
      PumpExtends(TakeLine(c));
    }
  }

  lemma TakeLineExtends(c: Conn)
    requires !c.phase.Failed? && LF in c.buffer
    ensures Extends(c, TakeLine(c))
  {
    hide OnLine, Trim;
    FirstLine(c.buffer);
    var newline := |SplitOn(c.buffer, LF)[0]|;
    LineExtends(c.(buffer := c.buffer[newline + 1..]), Trim(c.buffer[..newline], IsSpace));
  }

  lemma SettleExtends(c: Conn, response: Response, at: nat)
    ensures Extends(c, SettleHead(c, response, at))
  {
  }

  lemma HandleLineExtends(c: Conn, line: string)
    ensures Extends(c, HandleLine(c, line))
  {
    hide ParseRaw, NotificationOf, SettleHead, JoinWith;
    var r := ParseRaw(JoinWith(c.pendingData + [line], LF));
    if !(NOTIFY <= line) && ERROR_LINE <= line && r.Some? {
      SettleExtends(c.(lines := c.lines + [line], pendingData := []), r.value, |c.lines|);
    }
  }

  lemma LineExtends(c: Conn, line: string)
    requires !c.phase.Failed?
    ensures Extends(c, OnLine(c, line))
  {
    hide *;
    if c.phase.Ready? {
      HandleLineExtends(c, line);
      assert OnLine(c, line) == HandleLine(c, line) by { ReadyLine(c, line); }
    } else {
      HandshakeExtends(c, line);
    }
  }

  lemma ReadyLine(c: Conn, line: string)
    requires c.phase.Ready?
    ensures OnLine(c, line) == HandleLine(c, line)
  {
    hide HandleLine;
  }

  lemma HandshakeExtends(c: Conn, line: string)
    requires c.phase.Handshaking?
    ensures Extends(c, OnLine(c, line))
  {
    hide ErrorOfLine, HandleLine;
    var d := OnLine(c, line);
    assert d.written == c.written || d.written == c.written + [Login] || d.written == c.written + [Use];
    assert d.enqueued == c.enqueued && d.settled == c.settled && d.lines == c.lines && d.notified == c.notified;
  }

  /** A settlement, once made, stays: later events add to the record and change nothing in it. */
  lemma {:induction false} SettledForGood(c: Conn, e: Event)
    ensures Extends(c, Step(c, e))
  {
    hide Pump, FailAll;
    match e {
      case Data(chunk) => PumpExtends(c.(buffer := c.buffer + chunk));
      case Request(text) =>
      case ConnectTimeout =>
      case CommandTimeout => FailAllExtends(c, TimedOut);
      case SocketError =>
        FailAllExtends(if c.phase.Handshaking? then FailHandshake(c) else c, SocketFailure);
      case SocketClose => FailAllExtends(c.(connected := false), SocketClosed);
      case Close =>
    }
  }

  /** Once the socket is gone nothing is left waiting: every command enqueued so far has settled. */
  lemma {:induction false} NothingLeftWaiting(es: seq<Event>)
    ensures Run(START, es + [SocketClose]).queue == []
    ensures |Run(START, es + [SocketClose]).settled| == |Run(START, es).enqueued|
  {
    hide Inv, Pump, Answers, OnTheWire;
    RunKeeps(es);
    RunKeeps(es + [SocketClose]);
    var c := Run(START, es);
    assert (es + [SocketClose])[..|es|] == es;
    FailAllEmpties(c.(connected := false), SocketClosed);
    InvOrder(Run(START, es + [SocketClose]));
  }

  lemma InvOrder(c: Conn)
    requires Inv(c)
    ensures |c.enqueued| == |c.settled| + |c.queue|
  {
  }

  lemma {:induction false} FailAllEmpties(c: Conn, why: Failure)
    ensures FailAll(c, why).queue == [] && FailAll(c, why).enqueued == c.enqueued
    decreases |c.queue|
  {
    if c.queue != [] {
      FailAllEmpties(RejectHead(c, why), why);
    }
  }

  // ----- why a command is rejected -----

  /** All that waits is rejected for one reason, in order. */
  function Rejections(queue: seq<Pending>, why: Failure): (rs: seq<Settlement>)
    ensures |rs| == |queue|
    ensures forall i :: 0 <= i < |queue| ==> rs[i] == Settlement(queue[i].id, Rejected(why))
  {
    seq(|queue|, i requires 0 <= i < |queue| => Settlement(queue[i].id, Rejected(why)))
  }

  lemma RejectionsCons(queue: seq<Pending>, why: Failure)
    requires queue != []
    ensures Rejections(queue, why) == [Settlement(queue[0].id, Rejected(why))] + Rejections(queue[1..], why)
  {
  }

  lemma {:induction false} AllRejected(c: Conn, why: Failure)
    ensures FailAll(c, why) == c.(queue := [], settled := c.settled + Rejections(c.queue, why))
    decreases |c.queue|
  {
    hide Rejections;
    if c.queue != [] {
      var first, rest := [Settlement(c.queue[0].id, Rejected(why))], Rejections(c.queue[1..], why);
      AllRejected(RejectHead(c, why), why);
      RejectionsCons(c.queue, why);
      assert c.settled + first + rest == c.settled + (first + rest);
    } else {
      NothingToReject(c.settled, why);
    }
  }

  lemma NothingToReject(settled: seq<Settlement>, why: Failure)
    ensures settled + Rejections([], why) == settled
  {
  }

  /** The reason an event gives to whatever waits; a timer counts only while the head is armed. */
  function ReasonOf(c: Conn, e: Event): Option<Failure> {
    match e
    case CommandTimeout => if c.queue != [] && c.queue[0].armed then Some(TimedOut) else None
    case SocketError => Some(SocketFailure)
    case SocketClose => Some(SocketClosed)
    case _ => None
  }

  /** Such an event rejects everything that waits, in order and for that reason, writes nothing, and the socket is gone;
      before the connection is up it fails the handshake instead, unless it only closes the socket. */
  lemma ReasonRejectsAll(c: Conn, e: Event)
    requires ReasonOf(c, e).Some?
    ensures var d := Step(c, e);
            && d.queue == [] && d.settled == c.settled + Rejections(c.queue, ReasonOf(c, e).value)
            && d.destroyed && d.connected == (c.connected && !e.SocketClose?)
            && d.phase == (if e.SocketError? && c.phase.Handshaking? then Phase.Failed else c.phase)
            && d == c.(queue := d.queue, settled := d.settled, destroyed := true, connected := d.connected,
                       phase := d.phase)
  {
    AllRejected(c, TimedOut);
    AllRejected(if c.phase.Handshaking? then FailHandshake(c) else c, SocketFailure);
    AllRejected(c.(connected := false), SocketClosed);
  }

  /** Closing settles nothing: it takes leave of a live socket and lets go of it; a connect timer only ends a
      handshake. */
  lemma NothingRejected(c: Conn, e: Event)
    requires ReasonOf(c, e).None? && !e.Data?
    ensures Step(c, e).settled == c.settled
    ensures e.Close? ==>
              var d := Step(c, e);
              && d.closed && !d.hasSocket && d.destroyed && !d.connected && d.queue == c.queue
              && d.written == (if c.hasSocket && !c.destroyed then c.written + [Quit] else c.written)
    ensures e.ConnectTimeout? ==>
              Step(c, e) == if c.phase.Handshaking? then c.(phase := Phase.Failed, destroyed := true) else c
    ensures e.CommandTimeout? ==> Step(c, e) == c
  {
  }

  /** On a live connection everything settled was answered. */
  lemma LiveIsAnswered(c: Conn, i: nat)
    requires Inv(c) && i < |c.settled| && (c.destroyed ==> c.phase.Failed?)
    ensures c.settled[i].outcome.Resolved?
  {
    hide Faithful, DataSince, NotificationsIn, CleanLine;
  }

  lemma DataOnlyAnswers(c: Conn, chunk: string, i: nat)
    requires Inv(c) && |c.settled| <= i < |Step(c, Data(chunk)).settled|
    ensures Step(c, Data(chunk)).settled[i].outcome.Resolved?
  {
    hide Pump, Inv;
    var start := c.(buffer := c.buffer + chunk);
    StepKeeps(c, Data(chunk));
    PumpDestroys(start);
    LiveIsAnswered(Step(c, Data(chunk)), i);
  }

  lemma {:induction false} PumpDestroys(c: Conn)
    requires !c.destroyed
    ensures Pump(c).destroyed ==> Pump(c).phase.Failed?
    decreases |c.buffer|
  {
    hide Pump, TakeLine;
    PumpTakes(c);
    if !c.phase.Failed? && LF in c.buffer {
      TakeDestroys(c);
      if TakeLine(c).destroyed {
        PumpTakes(TakeLine(c));
      } else {
        PumpDestroys(TakeLine(c));
      }
    }
  }

  lemma TakeDestroys(c: Conn)
    requires !c.phase.Failed? && LF in c.buffer && !c.destroyed
    ensures TakeLine(c).destroyed ==> TakeLine(c).phase.Failed?
  {
    hide Trim, ParseRaw, NotificationOf, ErrorOfLine, SplitOn, JoinWith;
    FirstLine(c.buffer);
  }

  /** The event at `k` is what rejected command `i`, which was waiting then. */
  predicate RejectedAt(es: seq<Event>, k: nat, i: nat, why: Failure) {
    && k < |es| && ReasonOf(Run(START, es[..k]), es[k]) == Some(why)
    && |Run(START, es[..k]).settled| <= i < |Run(START, es[..k + 1]).settled|
  }

  /** A command is rejected only while it waits, when its timer runs out or the socket fails or closes, and for that
      reason; never for an answer that could not be parsed. */
  lemma {:induction false} RejectedFor(es: seq<Event>, i: nat)
    requires i < |Run(START, es).settled| && Run(START, es).settled[i].outcome.Rejected?
    ensures Run(START, es).settled[i].outcome.why != Malformed
    ensures exists k :: 0 <= k < |es| && RejectedAt(es, k, i, Run(START, es).settled[i].outcome.why)
  {
    hide Inv, Step, Extends, Rejections;
    if es != [] {
      var front, e := es[..|es| - 1], es[|es| - 1];
      var c := Run(START, front);
      assert es[..|front|] == front && es[..|front| + 1] == es;
      SettledStays(c, e);
      if i < |c.settled| {
        RejectedFor(front, i);
        var k :| 0 <= k < |front| && RejectedAt(front, k, i, c.settled[i].outcome.why);
        assert es[..k] == front[..k] && es[k] == front[k] && es[..k + 1] == front[..k + 1];
        assert RejectedAt(es, k, i, c.settled[i].outcome.why);
      } else {
        RunKeeps(front);
        if e.Data? {
          DataOnlyAnswers(c, e.chunk, i);
        } else if ReasonOf(c, e).None? {
          NothingRejected(c, e);
        } else {
          ReasonRejectsAll(c, e);
          assert RejectedAt(es, |front|, i, Run(START, es).settled[i].outcome.why);
        }
      }
    }
  }

  lemma SettledStays(c: Conn, e: Event)
    ensures c.settled <= Step(c, e).settled
  {
    hide Step;
    SettledForGood(c, e);
  }

  // ----- what a line and a request do -----

  /** The queue after its head has been answered: the next command is written, and its timer runs. */
  function Next(queue: seq<Pending>, sentAt: nat): seq<Pending>
    requires queue != []
  {
    if |queue| == 1 then []
    else [Pending(queue[1].id, queue[1].text, true, sentAt)] + queue[2..]
  }

  /** On a connection that is up, an error line answers the command that waits, with what was gathered since the last
      one, and writes the next; a data line is gathered; a notification is passed on. Nothing else happens. */
  lemma LineDoes(c: Conn, line: string)
    requires Inv(c) && c.phase.Ready? && !c.destroyed && c.hasSocket && CleanLine(line)
    ensures var d := OnLine(c, line);
            var lines := c.lines + [line];
            if NOTIFY <= line then
              d == c.(lines := lines, notified := c.notified + [NotificationOf(line)])
            else if !(ERROR_LINE <= line) then
              d == c.(lines := lines, pendingData := c.pendingData + [line])
            else if c.queue == [] then
              d == c.(lines := lines, pendingData := [])
            else
              var answer := Resolved(ResponseAt(lines, |c.lines|), |c.lines|, c.queue[0].sentAt);
              d == c.(lines := lines, pendingData := [], queue := Next(c.queue, |lines|),
                      settled := c.settled + [Settlement(c.queue[0].id, answer)],
                      written := if |c.queue| == 1 then c.written
                                 else c.written + [Command(c.queue[1].id, c.queue[1].text)])
  {
    hide ParseRaw, NotificationOf, EntriesOf, ErrorOfLine, ResponseAt, CleanLine, SettleHead, Served, OnTheWire,
         InOrder;
    if !(NOTIFY <= line) && ERROR_LINE <= line {
      ErrorLineParses(c, line);
      var d := c.(lines := c.lines + [line], pendingData := []);
      SettleDoes(d, ResponseAt(d.lines, |c.lines|), |c.lines|);
    }
  }

  lemma ErrorLineParses(c: Conn, line: string)
    requires Inv(c) && CleanLine(line) && ERROR_LINE <= line
    ensures ParseRaw(JoinWith(c.pendingData + [line], LF)) == Some(ResponseAt(c.lines + [line], |c.lines|))
  {
    hide ParseRaw, NotificationOf, EntriesOf, ErrorOfLine, CleanLine, DataSince, Served, OnTheWire, InOrder,
         EntriesOfAll, Faithful, NotificationsIn, IsData;
    DataIsData(c.lines, |c.lines|);
    ParsingNeverFails(c.pendingData, line);
    DataSincePrefix(c.lines, line, |c.lines|);
  }

  lemma SettleDoes(c: Conn, response: Response, at: nat)
    requires c.hasSocket && !c.destroyed
    ensures c.queue == [] ==> SettleHead(c, response, at) == c
    ensures c.queue != [] ==>
              SettleHead(c, response, at)
              == c.(queue := Next(c.queue, |c.lines|),
                    settled := c.settled + [Settlement(c.queue[0].id, Resolved(response, at, c.queue[0].sentAt))],
                    written := if |c.queue| == 1 then c.written
                               else c.written + [Command(c.queue[1].id, c.queue[1].text)])
  {
    if |c.queue| > 1 {
      var rest := c.queue[1..];
      assert rest[0 := rest[0].(armed := true, sentAt := |c.lines|)] == Next(c.queue, |c.lines|);
    }
  }

  /** A request joins the queue, and is written at once exactly if it is alone on a live socket. */
  lemma RequestDoes(c: Conn, text: string)
    ensures !c.phase.Ready? || !c.hasSocket ==> Step(c, Request(text)) == c
    ensures c.phase.Ready? && c.hasSocket ==>
              var d := Step(c, Request(text));
              var id := |c.enqueued|;
              && |d.queue| == |c.queue| + 1 && d.queue[..|c.queue|] == c.queue
              && d.queue[|c.queue|].id == id && d.queue[|c.queue|].text == text
              && (d.queue[|c.queue|].armed <==> c.queue == [])
              && (c.queue == [] ==> d.queue[0].sentAt == |c.lines|)
              && d == c.(enqueued := c.enqueued + [text], queue := d.queue,
                         written := if c.queue == [] && !c.destroyed then c.written + [Command(id, text)]
                                    else c.written)
  {
  }

  /** Without a socket nothing is written and no timer runs. */
  lemma NothingToSend(c: Conn)
    requires !c.hasSocket
    ensures SendHead(c) == c
  {
  }
}
