/** The ServerQuery connection object: its methods change its fields step by step, exactly as the state machine says. */
module QueryConnection {
  import opened Sequences
  import opened Escape
  import opened QueryProtocol
  import M = ConnectionModel

  method IndexOfNewline(s: string) returns (newline: int)
    ensures newline == -1 <==> LF !in s
    ensures newline != -1 ==> 0 <= newline < |s| && newline == |SplitOn(s, LF)[0]|
  {
    newline := 0;
    while newline < |s| && s[newline] != LF
      invariant 0 <= newline <= |s| && LF !in s[..newline]
    {
      newline := newline + 1;
    }
    if newline == |s| {
      assert s[..newline] == s;
      return -1;
    }
    assert s == s[..newline] + [LF] + s[newline + 1..];
    SplitPiece(s[..newline], s[newline + 1..], LF);
  }

  /** The fields of the connection and of its one handshake; the last five record what it did and what it saw. */
  class ServerQueryConnection {
    var phase: M.Phase
    var handshakeBuffer: string
    var buffer: string
    var connected: bool
    var closed: bool
    var hasSocket: bool
    var destroyed: bool
    var pendingData: seq<string>
    var queue: seq<M.Pending>
    var enqueued: seq<string>
    var written: seq<M.Write>
    var settled: seq<M.Settlement>
    var notified: seq<Notification>
    var lines: seq<string>

    function State(): M.Conn
      reads this
    {
      M.Conn(phase, if phase.Ready? then buffer else handshakeBuffer, connected, closed, hasSocket, destroyed,
             pendingData, queue, enqueued, written, settled, notified, lines)
    }

    /** A connection whose socket has just been opened. */
    constructor ()
      ensures Valid() && State() == M.START
    {
      phase := M.Handshaking(false, false);
      handshakeBuffer, buffer := "", "";
      connected, closed, hasSocket, destroyed := false, false, true, false;
      pendingData, queue := [], [];
      enqueued, written, settled, notified, lines := [], [], [], [], [];
    }

    /** A socket once let go of is gone. */
    predicate Valid()
      reads this
    {
      !hasSocket ==> destroyed
    }

    // ----- the queue -----

    method SendHead()
      modifies `queue, `written
      ensures State() == M.SendHead(old(State()))
    {
      if queue == [] || !hasSocket {
        return;
      }
      var head := queue[0];
      queue := queue[0 := head.(armed := true, sentAt := |lines|)];
      if !destroyed {
        written := written + [M.Command(head.id, head.text)];
      }
    }

    /** The last line handled is the one that completed the response. */
    method SettleHead(response: Response)
      requires lines != []
      modifies `queue, `settled, `written
      ensures State() == M.SettleHead(old(State()), response, |lines| - 1)
    {
      if queue == [] {
        return;
      }
      var head := queue[0];
      queue := queue[1..];
      settled := settled + [M.Settlement(head.id, M.Resolved(response, |lines| - 1, head.sentAt))];
      SendHead();
    }

    method RejectHead(why: M.Failure)
      modifies `queue, `settled
      ensures State() == M.RejectHead(old(State()), why)
    {
      if queue == [] {
        return;
      }
      var head := queue[0];
      queue := queue[1..];
      settled := settled + [M.Settlement(head.id, M.Rejected(why))];
    }

    method FailAll(why: M.Failure)
      modifies `queue, `settled
      ensures State() == M.FailAll(old(State()), why)
    {
      while |queue| > 0
        invariant M.FailAll(State(), why) == M.FailAll(old(State()), why)
        decreases |queue|
      {
        RejectHead(why);
      }
    }

    // ----- lines -----

    method HandleLine(line: string)
      modifies `lines, `notified, `pendingData, `queue, `settled, `written
      ensures State() == M.HandleLine(old(State()), line)
    {
      hide ParseRaw, NotificationOf, M.SettleHead, M.RejectHead, JoinWith;
      lines := lines + [line];
      if NOTIFY <= line {
        var notification := ParseNotification(line);
        notified := notified + [notification];
        return;
      }
      if ERROR_LINE <= line {
        pendingData := pendingData + [line];
        var raw := JoinWith(pendingData, LF);
        pendingData := [];
        var parsed := ParseRawResponse(raw);
        match parsed {
          case None => RejectHead(M.Malformed);
          case Some(response) => SettleHead(response);
        }
        return;
      }
      pendingData := pendingData + [line];
    }

    /** Takes the line that ends at `newline`, unless there is nothing on it. */
    method TakeLine(newline: nat)
      requires phase.Ready? && LF in buffer && newline < |buffer| && newline == |SplitOn(buffer, LF)[0]|
      modifies `buffer, `lines, `notified, `pendingData, `queue, `settled, `written
      ensures State() == M.TakeLine(old(State())) && |buffer| < |old(buffer)|
    {
      hide M.HandleLine, Trim, SplitOn;
      var line := Trim(buffer[..newline], IsSpace);
      buffer := buffer[newline + 1..];
      if line != "" {
        HandleLine(line);
      }
    }

    /** Takes every complete line from the buffer of a connected socket. */
    method ProcessBuffer()
      requires phase.Ready?
      modifies `buffer, `lines, `notified, `pendingData, `queue, `settled, `written
      ensures State() == M.Pump(old(State()))
    {
      hide M.Pump, M.TakeLine, SplitOn;
      var newline := IndexOfNewline(buffer);
      while newline != -1
        invariant newline == -1 <==> LF !in buffer
        invariant newline != -1 ==> 0 <= newline < |buffer| && newline == |SplitOn(buffer, LF)[0]|
        invariant M.Pump(State()) == M.Pump(old(State()))
        decreases |buffer|
      {
        M.PumpTakes(State());
        TakeLine(newline);
        newline := IndexOfNewline(buffer);
      }
      M.PumpTakes(State());
    }

    method OnData(chunk: string)
      requires phase.Ready?
      modifies `buffer, `lines, `notified, `pendingData, `queue, `settled, `written
      ensures State() == M.Pump(old(State()).(buffer := old(buffer) + chunk))
    {
      hide M.Pump;
      buffer := buffer + chunk;
      ProcessBuffer();
    }

    // ----- the handshake -----

    /** The handshake, unless it is over, gives up: the socket is destroyed and no further line is read. */
    method SettleWithError()
      modifies `phase, `destroyed
      ensures State() == if old(phase).Handshaking? then M.FailHandshake(old(State())) else old(State())
    {
      if !phase.Handshaking? {
        return;
      }
      phase := M.Failed;
      destroyed := true;
    }

    /** The handshake is done: the text it has not read is handed over and its lines are processed. */
    method Settle()
      requires phase.Handshaking?
      modifies this
      ensures phase.Ready? && State() == M.Pump(old(State()).(phase := M.Ready, connected := true))
    {
      hide M.Pump;
      phase := M.Ready;
      connected := true;
      buffer := handshakeBuffer;
      ProcessBuffer();
    }

    /** One line of the handshake; the last one also processes what follows it. */
    method HandshakeLine(line: string)
      requires phase.Handshaking?
      modifies this
      ensures phase.Ready? ==> State() == M.Pump(M.HandshakeLine(old(State()), line))
      ensures !phase.Ready? ==>
                State() == M.HandshakeLine(old(State()), line) && handshakeBuffer == old(handshakeBuffer)
    {
      hide M.Pump, ErrorOfLine;
      if !phase.bannerSeen {
        if line != M.BANNER {
          SettleWithError();
          return;
        }
        phase := phase.(bannerSeen := true);
        written := written + [M.Login];
        return;
      }
      if !phase.loginDone && M.WELCOME <= line {
        return;
      }
      if !(ERROR_LINE <= line) {
        SettleWithError();
        return;
      }
      var error := ParseErrorLine(line);
      if error.id != "0" {
        SettleWithError();
        return;
      }
      if !phase.loginDone {
        phase := phase.(loginDone := true);
        written := written + [M.Use];
      } else {
        Settle();
      }
    }

    method Handshake(chunk: string)
      requires !phase.Ready?
      modifies this
      ensures State() == M.Pump(old(State()).(buffer := old(handshakeBuffer) + chunk))
    {
      hide M.Pump, M.HandshakeLine, Trim;
      handshakeBuffer := handshakeBuffer + chunk;
      ghost var start := State();
      while phase.Handshaking?
        invariant M.Pump(start) == if phase.Ready? then State() else M.Pump(State())
        decreases phase.Handshaking?, |handshakeBuffer|
      {
        M.PumpTakes(State());
        var newline := IndexOfNewline(handshakeBuffer);
        if newline == -1 {
          return;
        }
        var line := Trim(handshakeBuffer[..newline], IsSpace);
        handshakeBuffer := handshakeBuffer[newline + 1..];
        if line != "" {
          HandshakeLine(line);
        }
      }
      M.PumpTakes(State());
    }

    // ----- events -----

    /** Text arrives; nothing arrives from a destroyed socket. */
    method OnChunk(chunk: string)
      modifies this
      ensures State() == M.Step(old(State()), M.Data(chunk))
    {
      hide M.Pump;
      if destroyed {
        return;
      }
      if phase.Ready? {
        OnData(chunk);
      } else {
        Handshake(chunk);
      }
    }

    /** A command is asked for once the connection is up. */
    method Command(name: string, ps: seq<Param>) returns (r: Result<nat, CommandError>)
      requires phase.Ready? && hasSocket
      modifies `queue, `enqueued, `written
      ensures r.Success? <==> Accepted(name, ps)
      ensures r.Success? ==>
                && r.value == |old(enqueued)|
                && State() == M.Step(old(State()),
                                     M.Request((if ps == [] then name else name + " " + Arguments(ps)) + [LF]))
      ensures r.Failure? ==> State() == old(State())
    {
      hide Accepted, Arguments;
      var built := BuildCommand(name, ps);
      if built.Failure? {
        return Failure(built.error);
      }
      r := Success(|enqueued|);
      queue := queue + [M.Pending(|enqueued|, built.value, false, 0)];
      enqueued := enqueued + [built.value];
      if |queue| == 1 {
        SendHead();
      }
    }

    method OnConnectTimeout()
      modifies `phase, `destroyed
      ensures State() == M.Step(old(State()), M.ConnectTimeout)
    {
      SettleWithError();
    }

    /** The timer of the head of the queue fires. */
    method OnCommandTimeout()
      requires Valid() && queue != [] && queue[0].armed
      modifies `queue, `settled, `destroyed
      ensures State() == M.Step(old(State()), M.CommandTimeout)
    {
      hide M.FailAll;
      FailAll(M.TimedOut);
      if hasSocket {
        destroyed := true;
      }
    }

    method OnSocketError()
      modifies `phase, `queue, `settled, `destroyed
      ensures State() == M.Step(old(State()), M.SocketError)
    {
      hide M.FailAll;
      SettleWithError();
      FailAll(M.SocketFailure);
      destroyed := true;
    }

    method OnSocketClose()
      modifies `connected, `queue, `settled, `destroyed
      ensures State() == M.Step(old(State()), M.SocketClose)
    {
      hide M.FailAll;
      connected := false;
      FailAll(M.SocketClosed);
      destroyed := true;
    }

    method Close()
      requires Valid()
      modifies `closed, `written, `hasSocket, `destroyed, `connected
      ensures Valid() && State() == M.Step(old(State()), M.Close)
    {
      closed := true;
      if hasSocket && !destroyed {
        written := written + [M.Quit];
        destroyed := true;
      }
      hasSocket := false;
      connected := false;
    }
  }
}
