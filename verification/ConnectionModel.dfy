/** The ServerQuery connection as a state machine: handshake, line buffer and command queue, one event at a time. */
module ConnectionModel {
  import opened Sequences
  import opened Escape
  import opened QueryProtocol

  const BANNER: string := "TS3"
  const WELCOME: string := "Welcome to the TeamSpeak"

  datatype Phase = Handshaking(bannerSeen: bool, loginDone: bool) | Ready | Failed

  datatype Failure = Malformed | TimedOut | SocketFailure | SocketClosed

  /** `sentAt` counts the lines handled before the command was written. */
  datatype Pending = Pending(id: nat, text: string, armed: bool, sentAt: nat)

  /** `at` is the position, among the handled lines, of the `error` line that settled the command. */
  datatype Outcome = Resolved(response: Response, at: nat, sentAt: nat) | Rejected(why: Failure)

  datatype Settlement = Settlement(id: nat, outcome: Outcome)

  datatype Write = Login | Use | Quit | Command(id: nat, text: string)

  datatype Conn = Conn(
    phase: Phase,
    buffer: string,
    connected: bool,
    closed: bool,
    hasSocket: bool,
    destroyed: bool,
    pendingData: seq<string>,
    queue: seq<Pending>,
    // what the connection has done so far
    enqueued: seq<string>,
    written: seq<Write>,
    settled: seq<Settlement>,
    notified: seq<Notification>,
    lines: seq<string>)

  const START: Conn :=
    Conn(Handshaking(false, false), "", false, false, true, false, [], [], [], [], [], [], [])

  datatype Event =
    | Data(chunk: string) | Request(text: string)
    | ConnectTimeout | CommandTimeout | SocketError | SocketClose | Close

  // ----- the queue -----

  function SendHead(c: Conn): Conn {
    if c.queue == [] || !c.hasSocket then c
    else
      var head := c.queue[0];
      var armed := c.(queue := c.queue[0 := head.(armed := true, sentAt := |c.lines|)]);
      if c.destroyed then armed else armed.(written := c.written + [Command(head.id, head.text)])
  }

  function SettleHead(c: Conn, response: Response, at: nat): Conn {
    if c.queue == [] then c
    else
      var head := c.queue[0];
      SendHead(c.(queue := c.queue[1..],
                  settled := c.settled + [Settlement(head.id, Resolved(response, at, head.sentAt))]))
  }

  function RejectHead(c: Conn, why: Failure): Conn {
    if c.queue == [] then c
    else c.(queue := c.queue[1..], settled := c.settled + [Settlement(c.queue[0].id, Rejected(why))])
  }

  function FailAll(c: Conn, why: Failure): Conn
    decreases |c.queue|
  {
    if c.queue == [] then c else FailAll(RejectHead(c, why), why)
  }

  function Enqueue(c: Conn, text: string): Conn {
    var more := c.(queue := c.queue + [Pending(|c.enqueued|, text, false, 0)], enqueued := c.enqueued + [text]);
    if |more.queue| == 1 then SendHead(more) else more
  }

  // ----- lines -----

  function HandleLine(c: Conn, line: string): Conn {
    var c := c.(lines := c.lines + [line]);
    if NOTIFY <= line then c.(notified := c.notified + [NotificationOf(line)])
    else if ERROR_LINE <= line then
      match ParseRaw(JoinWith(c.pendingData + [line], LF))
      case None => RejectHead(c.(pendingData := []), Malformed)
      case Some(response) => SettleHead(c.(pendingData := []), response, |c.lines| - 1)
    else c.(pendingData := c.pendingData + [line])
  }

  function FailHandshake(c: Conn): Conn {
    c.(phase := Failed, destroyed := true)
  }

  function HandshakeLine(c: Conn, line: string): Conn
    requires c.phase.Handshaking?
  {
    if !c.phase.bannerSeen then
      if line != BANNER then FailHandshake(c)
      else c.(phase := Handshaking(true, c.phase.loginDone), written := c.written + [Login])
    else if !c.phase.loginDone && WELCOME <= line then c
    else if !(ERROR_LINE <= line) then FailHandshake(c)
    else if ErrorOfLine(line).id != "0" then FailHandshake(c)
    else if !c.phase.loginDone then c.(phase := Handshaking(true, true), written := c.written + [Use])
    else c.(phase := Ready, connected := true)
  }

  function OnLine(c: Conn, line: string): Conn
    requires !c.phase.Failed?
  {
    if c.phase.Handshaking? then HandshakeLine(c, line) else HandleLine(c, line)
  }

  /** One complete line taken from the buffer; an empty one is skipped. */
  function TakeLine(c: Conn): (d: Conn)
    requires !c.phase.Failed? && LF in c.buffer
    ensures |d.buffer| < |c.buffer|
  {
    FirstLine(c.buffer);
    var newline := |SplitOn(c.buffer, LF)[0]|;
    var line := Trim(c.buffer[..newline], IsSpace);
    var rest := c.(buffer := c.buffer[newline + 1..]);
    if line == "" then rest
    else
      KeepsBuffer(rest, line);
      OnLine(rest, line)
  }

  /** Complete lines are taken while any is left; a failed handshake takes no more. */
  function Pump(c: Conn): Conn
    decreases |c.buffer|
  {
    if c.phase.Failed? || LF !in c.buffer then c else Pump(TakeLine(c))
  }

  // ----- events -----

  /** Events that the runtime does not deliver in a state leave it unchanged. */
  function Step(c: Conn, e: Event): Conn {
    match e
    case Data(chunk) => if c.destroyed then c else Pump(c.(buffer := c.buffer + chunk))
    case Request(text) => if c.phase.Ready? && c.hasSocket then Enqueue(c, text) else c
    case ConnectTimeout => if c.phase.Handshaking? then FailHandshake(c) else c
    case CommandTimeout =>
      if c.queue != [] && c.queue[0].armed then FailAll(c, TimedOut).(destroyed := true) else c
    case SocketError =>
      FailAll(if c.phase.Handshaking? then FailHandshake(c) else c, SocketFailure).(destroyed := true)
    case SocketClose => FailAll(c.(connected := false), SocketClosed).(destroyed := true)
    case Close =>
      var quit := if c.hasSocket && !c.destroyed then c.(written := c.written + [Quit]) else c;
      quit.(closed := true, hasSocket := false, destroyed := true, connected := false)
  }

  function Run(c: Conn, es: seq<Event>): Conn {
    if es == [] then c else Step(Run(c, es[..|es| - 1]), es[|es| - 1])
  }

  // ----- lines taken from the buffer -----

  lemma {:induction false} FirstLine(s: string)
    requires LF in s
    ensures var n := |SplitOn(s, LF)[0]|;
            n < |s| && s[n] == LF && LF !in s[..n] && s[..n] == SplitOn(s, LF)[0]
            && SplitOn(s, LF) == [s[..n]] + SplitOn(s[n + 1..], LF)
  {
    if s[0] == LF {
      assert s[..0] == [];
    } else {
      FirstLine(s[1..]);
      var n := |SplitOn(s, LF)[0]|;
      assert s[..n] == [s[0]] + s[1..][..n - 1];
      assert s[1..][n..] == s[n + 1..];
    }
  }

  lemma SettleKeepsBuffer(c: Conn, response: Response, at: nat)
    ensures SettleHead(c, response, at).buffer == c.buffer
  {
  }

  lemma KeepsBuffer(c: Conn, line: string)
    requires !c.phase.Failed?
    ensures OnLine(c, line).buffer == c.buffer
  {
    hide ParseRaw, ErrorOfLine, NotificationOf, SettleHead;
    var d := c.(lines := c.lines + [line], pendingData := []);
    var r := ParseRaw(JoinWith(c.pendingData + [line], LF));
    if r.Some? {
      SettleKeepsBuffer(d, r.value, |c.lines|);
    }
  }

  lemma PumpTakes(c: Conn)
    ensures c.phase.Failed? || LF !in c.buffer ==> Pump(c) == c
    ensures !c.phase.Failed? && LF in c.buffer ==> Pump(c) == Pump(TakeLine(c))
  {
  }
}
