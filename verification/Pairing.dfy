/** Pairing codes and the long-term credential: requests in two steps with an await between, and the commands of the
    administrator's tool, which read the configuration when they start and write it when they end. */
module Pairing {
  import opened Sequences

  const PAIRING_CODE_TTL_MS: int := 15 * 60 * 1000

  datatype PairingState = PairingState(codeHash: string, expiresAt: int, consumed: bool)

  /** The part of the configuration that decides who may call the agent; no credential is an empty one. */
  datatype Agent = Agent(enabled: bool, credential: string, pairing: Option<PairingState>)

  /** A freshly drawn credential. */
  type Token = s: string | s != "" witness "t"

  /** What a request asks for; a pairing code is known by its hash. */
  datatype Route = Pair(codeHash: string) | Rotate | Unpair | Disable

  datatype Command = EnableApi(newHash: string) | PairHere(codeHash: string) | RotateHere | UnpairHere | DisableHere

  /** What is done in the end. */
  datatype Effect = Refused | Enabled(newHash: string) | Paired(codeHash: string) | Rotated | Unpaired | Disabled

  predicate PairingMatches(state: PairingState, codeHash: string, now: int) {
    !state.consumed && now <= state.expiresAt && state.codeHash == codeHash
  }

  predicate Matches(pairing: Option<PairingState>, codeHash: string, now: int) {
    pairing.Some? && PairingMatches(pairing.value, codeHash, now)
  }

  // ----- decisions -----

  /** The secret a request was signed with, a pairing code being known by its hash; none if it bears no signature, or
      one out of its time or seen before. */
  type Signature = Option<string>

  /** A request is authenticated against the configuration loaded before its body was read. */
  predicate Authenticated(loaded: Agent, route: Route, now: int, signature: Signature) {
    match route
    case Pair(codeHash) => Matches(loaded.pairing, codeHash, now) && signature == Some(codeHash)
    case _ => loaded.credential != "" && signature == Some(loaded.credential)
  }

  /** Its handler looks at the configuration as it is by then. */
  function Handled(agent: Agent, route: Route, now: int): Effect {
    match route
    case Pair(codeHash) => if Matches(agent.pairing, codeHash, now) then Paired(codeHash) else Refused
    case Rotate => if agent.credential != "" then Rotated else Refused
    case Unpair => Unpaired
    case Disable => Disabled
  }

  /** A command checks only the configuration it started with. */
  function Decided(loaded: Agent, command: Command, now: int): Effect {
    match command
    case EnableApi(newHash) => if loaded.credential != "" then Refused else Enabled(newHash)
    case PairHere(codeHash) => if Matches(loaded.pairing, codeHash, now) then Paired(codeHash) else Refused
    case RotateHere => if loaded.credential != "" then Rotated else Refused
    case UnpairHere => Unpaired
    case DisableHere => Disabled
  }

  function Applied(agent: Agent, effect: Effect, now: int, token: Token): Agent {
    match effect
    case Refused => agent
    case Enabled(newHash) =>
      agent.(enabled := true, pairing := Some(PairingState(newHash, now + PAIRING_CODE_TTL_MS, false)))
    case Paired(_) => agent.(pairing := None, credential := token)
    case Rotated => agent.(credential := token)
    case Unpaired => agent.(credential := "", pairing := None)
    case Disabled => agent.(enabled := false, credential := "", pairing := None)
  }

  // ----- the world around the configuration -----

  /** A credential handed out for a code; `active` when that code was the one pairing awaited just then. */
  datatype Mint = Mint(codeHash: string, token: Token, at: int, active: bool)

  /** What a request's handler has decided and not yet written, and when it looked. */
  datatype Handling = Handling(effect: Effect, at: int)

  /** Requests and commands under way with what they loaded; the request being handled; codes drawn and, once written,
      their time; what was handed out. */
  datatype World = World(
    agent: Agent,
    requests: map<nat, (Route, Agent)>,
    handling: Option<Handling>,
    commands: map<nat, (Command, Agent)>,
    drawn: set<string>,
    issued: map<string, int>,
    minted: seq<Mint>,
    tokens: seq<Token>)

  const START: World := World(Agent(false, "", None), map[], None, map[], {}, map[], [], [])

  /** A request is received, later checked, and what its handler decides is then written. A command begins and later
      commits; `Run` is a command done at once. */
  datatype Event =
    | Receive(id: nat, route: Route) | Check(id: nat, now: int, signature: Signature) | Write(token: Token)
    | Begin(id: nat, command: Command) | Commit(id: nat, now: int, token: Token)
    | Run(command: Command, now: int, token: Token)

  predicate Codes(command: Command, drawn: set<string>) { command.EnableApi? ==> command.newHash !in drawn }

  function Drawing(command: Command): set<string> { if command.EnableApi? then {command.newHash} else {} }

  /** What an event writes. */
  function Due(w: World, e: Event): Effect {
    match e
    case Write(_) => if w.handling.Some? then w.handling.value.effect else Refused
    case Commit(id, now, _) => if id in w.commands then Decided(w.commands[id].1, w.commands[id].0, now) else Refused
    case Run(command, now, _) => if Codes(command, w.drawn) then Decided(w.agent, command, now) else Refused
    case _ => Refused
  }

  /** The time it goes by. */
  function DueAt(w: World, e: Event): int {
    match e
    case Write(_) => if w.handling.Some? then w.handling.value.at else 0
    case Commit(_, now, _) => now
    case Run(_, now, _) => now
    case _ => 0
  }

  /** Whoever writes is done; a command that never began has drawn its code just now. */
  function Taken(w: World, e: Event): World {
    match e
    case Write(_) => w.(handling := None)
    case Commit(id, _, _) => w.(commands := w.commands - {id})
    case Run(command, _, _) => if Codes(command, w.drawn) then w.(drawn := w.drawn + Drawing(command)) else w
    case _ => w
  }

  function Do(w: World, effect: Effect, now: int, token: Token): World {
    w.(agent := Applied(w.agent, effect, now, token),
       issued := if effect.Enabled? then w.issued[effect.newHash := now] else w.issued,
       minted := if effect.Paired?
                 then w.minted + [Mint(effect.codeHash, token, now, Matches(w.agent.pairing, effect.codeHash, now))]
                 else w.minted,
       tokens := if effect.Paired? || effect.Rotated? then w.tokens + [token] else w.tokens)
  }

  /** An identifier is used by one request or command at a time, and no code is drawn twice. While the agent handles a
      request it does nothing else; the tool is another process and may. */
  function Step(w: World, e: Event): World {
    match e
    case Receive(id, route) =>
      if id in w.requests || w.handling.Some? then w
      else w.(requests := w.requests[id := (route, w.agent)])
    case Check(id, now, signature) =>
      if id !in w.requests || w.handling.Some? then w
      else
        var (route, loaded) := w.requests[id];
        var effect := if Authenticated(loaded, route, now, signature) then Handled(w.agent, route, now) else Refused;
        w.(requests := w.requests - {id}, handling := if effect.Refused? then None else Some(Handling(effect, now)))
    case Begin(id, command) =>
      if id in w.commands || !Codes(command, w.drawn) then w
      else w.(commands := w.commands[id := (command, w.agent)], drawn := w.drawn + Drawing(command))
    case _ => Do(Taken(w, e), Due(w, e), DueAt(w, e), e.token)
  }

  predicate Writes(e: Event) { Later(e) || e.Run? }

  /** Writes what was decided on earlier. */
  predicate Later(e: Event) { e.Write? || e.Commit? }

  function After(es: seq<Event>): World {
    if es == [] then START else Step(After(es[..|es| - 1]), es[|es| - 1])
  }

  // ----- every run -----

  /** A code is drawn before it is issued, and one that a command still holds is not issued yet. */
  predicate CodesInOrder(w: World) {
    && w.issued.Keys <= w.drawn
    && (forall id :: id in w.commands ==> Held(w.commands[id].0, w))
    && (forall i, j :: i in w.commands && j in w.commands && i != j ==>
          Apart(w.commands[i].0, w.commands[j].0))
  }

  predicate Held(command: Command, w: World) {
    command.EnableApi? ==> command.newHash in w.drawn && command.newHash !in w.issued
  }

  predicate Apart(a: Command, b: Command) {
    a.EnableApi? && b.EnableApi? ==> a.newHash != b.newHash
  }

  /** A pairing awaited, now or in anything loaded earlier, was issued, and expires when it should. */
  predicate Genuine(agent: Agent, issued: map<string, int>) {
    agent.pairing.Some? ==>
      && agent.pairing.value.codeHash in issued
      && agent.pairing.value.expiresAt == issued[agent.pairing.value.codeHash] + PAIRING_CODE_TTL_MS
  }

  predicate AllGenuine(w: World) {
    && Genuine(w.agent, w.issued)
    && (forall id :: id in w.requests ==> Genuine(w.requests[id].1, w.issued))
    && (forall id :: id in w.commands ==> Genuine(w.commands[id].1, w.issued))
  }

  predicate InTime(m: Mint, issued: map<string, int>) {
    m.codeHash in issued && m.at <= issued[m.codeHash] + PAIRING_CODE_TTL_MS
  }

  /** Codes that minted while awaited are distinct, and no code that minted is awaited any more. */
  predicate SpentOnce(w: World) {
    && (forall i :: 0 <= i < |w.minted| ==> InTime(w.minted[i], w.issued))
    && (forall i, j :: 0 <= i < j < |w.minted| && w.minted[i].active && w.minted[j].active ==>
          w.minted[i].codeHash != w.minted[j].codeHash)
    && (forall i :: 0 <= i < |w.minted| && w.agent.pairing.Some? ==>
          w.agent.pairing.value.codeHash != w.minted[i].codeHash)
  }

  /** Only the last credential handed out can be the agent's. */
  predicate LastTokenOnly(w: World) {
    w.agent.credential != "" ==> w.tokens != [] && w.agent.credential == w.tokens[|w.tokens| - 1]
  }

  /** What a handler decided: no code is issued by a request, and one paired with was issued, in time. */
  predicate HandlingSound(w: World) {
    w.handling.Some? ==>
      && !w.handling.value.effect.Enabled? && Allowed(w, w.handling.value.effect, w.handling.value.at)
  }

  predicate Inv(w: World) {
    CodesInOrder(w) && AllGenuine(w) && SpentOnce(w) && LastTokenOnly(w) && HandlingSound(w)
  }

  /** An effect that may be carried out: a new code was not issued before, and one paired with was, in time. */
  predicate Allowed(w: World, effect: Effect, now: int) {
    && (effect.Enabled? ==> effect.newHash in w.drawn && effect.newHash !in w.issued
                            && forall id :: id in w.commands && w.commands[id].0.EnableApi? ==>
                                 w.commands[id].0.newHash != effect.newHash)
    && (effect.Paired? ==> effect.codeHash in w.issued
                           && now <= w.issued[effect.codeHash] + PAIRING_CODE_TTL_MS)
  }

  lemma DoKeeps(w: World, effect: Effect, now: int, token: Token)
    requires Inv(w) && Allowed(w, effect, now)
    ensures Inv(Do(w, effect, now, token))
  {
    DoKeepsSpent(w, effect, now, token);
    DoKeepsCodes(w, effect, now, token);
  }

  lemma DoKeepsCodes(w: World, effect: Effect, now: int, token: Token)
    requires Inv(w) && Allowed(w, effect, now)
    ensures CodesInOrder(Do(w, effect, now, token))
    ensures AllGenuine(Do(w, effect, now, token))
  {
    hide SpentOnce;
  }

  lemma DoKeepsSpent(w: World, effect: Effect, now: int, token: Token)
    requires Inv(w) && Allowed(w, effect, now)
    ensures SpentOnce(Do(w, effect, now, token))
  {
    hide CodesInOrder;
  }

  lemma StepKeeps(w: World, e: Event)
    requires Inv(w)
    ensures Inv(Step(w, e))
  {
    if Writes(e) {
      hide Do, Inv;
      TakenKeeps(w, e);
      DoKeeps(Taken(w, e), Due(w, e), DueAt(w, e), e.token);
    } else {
      LookKeeps(w, e);
    }
  }

  /** Looking at the configuration changes nothing in it. */
  lemma LookKeeps(w: World, e: Event)
    requires Inv(w) && !Writes(e)
    ensures Inv(Step(w, e))
  {
    match e {
      case Receive(id, route) =>
      case Check(id, now, signature) =>
        if id in w.requests && w.handling.None? {
          hide SpentOnce, CodesInOrder;
          CheckKeeps(w, id, now, signature);
        }
      case Begin(id, command) =>
        if id !in w.commands && Codes(command, w.drawn) {
          hide SpentOnce, CodesInOrder;
          BeginKeeps(w, id, command);
        }
    }
  }

  lemma CheckKeeps(w: World, id: nat, now: int, signature: Signature)
    requires Inv(w) && id in w.requests && w.handling.None?
    ensures Inv(Step(w, Check(id, now, signature)))
  {
  }

  lemma BeginKeeps(w: World, id: nat, command: Command)
    requires Inv(w) && id !in w.commands && Codes(command, w.drawn)
    ensures Inv(w.(commands := w.commands[id := (command, w.agent)], drawn := w.drawn + Drawing(command)))
  {
  }

  lemma TakenKeeps(w: World, e: Event)
    requires Inv(w) && Writes(e)
    ensures Inv(Taken(w, e)) && Allowed(Taken(w, e), Due(w, e), DueAt(w, e))
  {
    if e.Commit? {
      CommandTaken(w, e.id);
    }
  }

  lemma CommandTaken(w: World, id: nat)
    requires Inv(w)
    ensures Inv(w.(commands := w.commands - {id}))
    ensures id in w.commands && w.commands[id].0.EnableApi? ==>
              forall j :: j in w.commands - {id} && w.commands[j].0.EnableApi? ==>
                w.commands[j].0.newHash != w.commands[id].0.newHash
  {
    if id in w.commands {
      forall j | j in w.commands - {id} ensures Apart(w.commands[id].0, w.commands[j].0) {
      }
    }
  }

  lemma {:induction false} RunKeeps(es: seq<Event>)
    ensures Inv(After(es))
  {
    if es != [] {
      hide Inv, Step;
      RunKeeps(es[..|es| - 1]);
      StepKeeps(After(es[..|es| - 1]), es[|es| - 1]);
    }
  }

  /** Requests interleaved in any way, a code that is awaited when it is used pairs once: every credential handed out
      goes to a code issued at most fifteen minutes before, and no two of them to the same awaited code. */
  lemma {:induction false} EachCodePairsOnce(es: seq<Event>, i: nat, j: nat)
    requires i < |After(es).minted| && j < |After(es).minted|
    ensures var w := After(es);
            && InTime(w.minted[i], w.issued)
            && (i != j && w.minted[i].active && w.minted[j].active ==> w.minted[i].codeHash != w.minted[j].codeHash)
  {
    hide After, CodesInOrder, AllGenuine;
    RunKeeps(es);
    var w := After(es);
    if j < i && w.minted[i].active && w.minted[j].active {
      assert w.minted[j].codeHash != w.minted[i].codeHash;
    }
  }

  /** No credential but the last one handed out is ever the agent's. */
  lemma {:induction false} OldCredentialsAreDead(es: seq<Event>, i: nat)
    requires i + 1 < |After(es).tokens| && After(es).tokens[i] != After(es).tokens[|After(es).tokens| - 1]
    ensures After(es).agent.credential != After(es).tokens[i]
  {
    hide After, CodesInOrder, AllGenuine, SpentOnce;
    RunKeeps(es);
  }

  // ----- whose requests have an effect -----

  /** A request under way holds what the configuration was when it was received. */
  lemma {:induction false} LoadedOnReceipt(es: seq<Event>, id: nat)
    requires id in After(es).requests
    ensures exists j :: 0 <= j < |es| && es[j] == Receive(id, After(es).requests[id].0)
                        && After(es[..j]).agent == After(es).requests[id].1
  {
    if es != [] {
      hide Step;
      var front, e := es[..|es| - 1], es[|es| - 1];
      RequestBegins(After(front), e, id);
      if id in After(front).requests {
        LoadedOnReceipt(front, id);
        var j :| 0 <= j < |front| && front[j] == Receive(id, After(front).requests[id].0)
                 && After(front[..j]).agent == After(front).requests[id].1;
        assert es[j] == front[j] && es[..j] == front[..j];
      } else {
        assert es[|front|] == Receive(id, After(es).requests[id].0) && es[..|front|] == front;
      }
    }
  }

  lemma RequestBegins(w: World, e: Event, id: nat)
    requires id in Step(w, e).requests
    ensures if id in w.requests then Step(w, e).requests[id] == w.requests[id]
            else e.Receive? && e.id == id && Step(w, e).requests[id] == (e.route, w.agent)
  {
    hide Handled, Authenticated, Decided, Applied, Due, DueAt;
  }

  /** The agent awaits this code, not yet used and not yet expired. */
  ghost predicate Awaits(agent: Agent, codeHash: string, now: int) {
    exists expiresAt :: agent.pairing == Some(PairingState(codeHash, expiresAt, false)) && now <= expiresAt
  }

  /** A request that may do this: it bears the signature of the pairing code that was awaited when it was received, or
      of the credential the agent had then. */
  ghost predicate Signed(loaded: Agent, route: Route, now: int, signature: Signature) {
    match route
    case Pair(codeHash) =>
      signature == Some(codeHash) && Awaits(loaded, codeHash, now)
    case _ => loaded.credential != "" && signature == Some(loaded.credential)
  }

  /** The request behind what a handler has decided: received at `j` and checked at `k`. */
  ghost predicate Origin(es: seq<Event>, j: nat, k: nat, h: Handling) {
    && j < k < |es| && es[j].Receive? && es[k].Check? && es[k].id == es[j].id && es[k].now == h.at
    && Signed(After(es[..j]).agent, es[j].route, h.at, es[k].signature)
    && h.effect == Handled(After(es[..k]).agent, es[j].route, h.at)
  }

  /** Whatever a handler carries out was asked for by a request signed so. */
  lemma {:induction false} HandledIsSigned(es: seq<Event>)
    requires After(es).handling.Some?
    ensures exists j: nat, k: nat :: Origin(es, j, k, After(es).handling.value)
  {
    if es != [] {
      hide Step, Handled, Authenticated, Signed;
      var front, e := es[..|es| - 1], es[|es| - 1];
      var w := After(front);
      assert es[..|front|] == front && es[|front|] == e;
      HandlingBegins(w, e);
      if e.Check? && w.handling.None? {
        LoadedOnReceipt(front, e.id);
        var j :| 0 <= j < |front| && front[j] == Receive(e.id, w.requests[e.id].0)
                 && After(front[..j]).agent == w.requests[e.id].1;
        assert es[j] == front[j] && es[..j] == front[..j];
        SignedIff(w.requests[e.id].1, w.requests[e.id].0, e.now, e.signature);
        assert Origin(es, j, |front|, After(es).handling.value);
      } else {
        HandledIsSigned(front);
        var j: nat, k: nat :| Origin(front, j, k, w.handling.value);
        assert es[j] == front[j] && es[..j] == front[..j] && es[k] == front[k] && es[..k] == front[..k];
        assert Origin(es, j, k, w.handling.value);
      }
    }
  }

  lemma SignedIff(loaded: Agent, route: Route, now: int, signature: Signature)
    ensures Authenticated(loaded, route, now, signature) <==> Signed(loaded, route, now, signature)
  {
    if route.Pair? {
      MatchesIsAwaits(loaded, route.codeHash, now);
    }
  }

  lemma MatchesIsAwaits(agent: Agent, codeHash: string, now: int)
    ensures Matches(agent.pairing, codeHash, now) <==> Awaits(agent, codeHash, now)
  {
    if Matches(agent.pairing, codeHash, now) {
      assert agent.pairing == Some(PairingState(codeHash, agent.pairing.value.expiresAt, false));
    }
  }

  lemma HandlingBegins(w: World, e: Event)
    requires Step(w, e).handling.Some?
    ensures if e.Check? && w.handling.None? then
              && e.id in w.requests
              && Authenticated(w.requests[e.id].1, w.requests[e.id].0, e.now, e.signature)
              && Step(w, e).handling.value == Handling(Handled(w.agent, w.requests[e.id].0, e.now), e.now)
            else Step(w, e).handling == w.handling
  {
    hide Handled, Authenticated, Due;
  }

  /** Nothing but a write touches the configuration or hands out anything; and a request whose signature is not that of
      the configuration it loaded is merely gone. */
  lemma OnlyWritesChange(w: World, e: Event)
    requires !Writes(e)
    ensures var v := Step(w, e);
            v.agent == w.agent && v.minted == w.minted && v.tokens == w.tokens && v.issued == w.issued
    ensures e.Check? && e.id in w.requests && w.handling.None?
            && !Signed(w.requests[e.id].1, w.requests[e.id].0, e.now, e.signature) ==>
              Step(w, e) == w.(requests := w.requests - {e.id})
  {
    if e.Check? && e.id in w.requests {
      SignedIff(w.requests[e.id].1, w.requests[e.id].0, e.now, e.signature);
    }
  }

  /** What a write does: to the configuration, and to the record of codes issued and credentials handed out. */
  lemma WritesDo(w: World, e: Event)
    requires Writes(e)
    ensures var v := Step(w, e);
            var at := DueAt(w, e);
            match Due(w, e)
            case Refused => v.agent == w.agent && v.issued == w.issued && v.minted == w.minted && v.tokens == w.tokens
            case Enabled(code) =>
              && v.agent == Agent(true, w.agent.credential, Some(PairingState(code, at + 900_000, false)))
              && v.issued == w.issued[code := at] && v.minted == w.minted && v.tokens == w.tokens
            case Paired(code) =>
              && v.agent == Agent(w.agent.enabled, e.token, None) && v.issued == w.issued
              && v.minted == w.minted + [Mint(code, e.token, at, Matches(w.agent.pairing, code, at))]
              && v.tokens == w.tokens + [e.token]
            case Rotated =>
              && v.agent == Agent(w.agent.enabled, e.token, w.agent.pairing) && v.issued == w.issued
              && v.minted == w.minted && v.tokens == w.tokens + [e.token]
            case Unpaired =>
              && v.agent == Agent(w.agent.enabled, "", None)
              && v.issued == w.issued && v.minted == w.minted && v.tokens == w.tokens
            case Disabled =>
              && v.agent == Agent(false, "", None)
              && v.issued == w.issued && v.minted == w.minted && v.tokens == w.tokens
  {
  }

  /** What a command is allowed by the configuration it began with. */
  lemma DecidedIff(loaded: Agent, now: int, code: string)
    ensures Decided(loaded, EnableApi(code), now) == if loaded.credential == "" then Enabled(code) else Refused
    ensures Decided(loaded, RotateHere, now) == if loaded.credential != "" then Rotated else Refused
    ensures Decided(loaded, PairHere(code), now).Paired? <==> Awaits(loaded, code, now)
    ensures Decided(loaded, PairHere(code), now) in {Paired(code), Refused}
    ensures Decided(loaded, UnpairHere, now) == Unpaired && Decided(loaded, DisableHere, now) == Disabled
  {
    MatchesIsAwaits(loaded, code, now);
  }

  /** The agent handles one request at a time. */
  lemma HandlerIsAlone(w: World, e: Event)
    requires w.handling.Some? && (e.Receive? || e.Check?)
    ensures Step(w, e) == w
  {
  }

  /** Whatever is under way keeps what it loaded until its own next step. */
  lemma UnderWayKept(w: World, e: Event, id: nat)
    ensures id in w.commands && !(e.Commit? && e.id == id) ==>
              id in Step(w, e).commands && Step(w, e).commands[id] == w.commands[id]
    ensures id in w.requests && !(e.Check? && e.id == id) ==>
              id in Step(w, e).requests && Step(w, e).requests[id] == w.requests[id]
  {
    hide Handled, Authenticated, Decided, Applied, Due, DueAt;
  }

  /** So a credential that has been replaced is of no use: no request signed with it is carried out, unless it was
      received while it still was the agent's. */
  lemma {:induction false} ReplacedCredentialIsUseless(es: seq<Event>)
    requires After(es).handling.Some?
    ensures exists j: nat, k: nat ::
              && Origin(es, j, k, After(es).handling.value)
              && (!es[j].route.Pair? ==>
                    && After(es[..j]).tokens != []
                    && es[k].signature == Some(After(es[..j]).tokens[|After(es[..j]).tokens| - 1]))
  {
    hide After, Signed, Handled, CodesInOrder, AllGenuine, SpentOnce, HandlingSound;
    HandledIsSigned(es);
    var j: nat, k: nat :| Origin(es, j, k, After(es).handling.value);
    RunKeeps(es[..j]);
    if !es[j].route.Pair? {
      SignedWith(After(es[..j]).agent, es[j].route, After(es).handling.value.at, es[k].signature);
    }
  }

  lemma SignedWith(loaded: Agent, route: Route, now: int, signature: Signature)
    requires Signed(loaded, route, now, signature) && !route.Pair?
    ensures loaded.credential != "" && signature == Some(loaded.credential)
  {
  }

  // ----- never both a credential and an awaited pairing -----

  predicate Exclusive(agent: Agent) { agent.credential == "" || agent.pairing.None? }

  /** A request or command writes although what it was decided on no longer holds: it enables an agent that has been
      paired, or rotates the credential of one that awaits pairing. */
  predicate Overtaken(w: World, e: Event) {
    Later(e) && match Due(w, e)
    case Enabled(_) => w.agent.credential != ""
    case Rotated => w.agent.pairing.Some?
    case _ => false
  }

  lemma StepExclusive(w: World, e: Event)
    requires Exclusive(w.agent)
    ensures Exclusive(Step(w, e).agent) <==> !Overtaken(w, e)
  {
  }

  predicate AlwaysExclusive(es: seq<Event>) {
    forall k :: 0 <= k <= |es| ==> Exclusive(After(es[..k]).agent)
  }

  predicate NeverOvertaken(es: seq<Event>) {
    forall k :: 0 <= k < |es| ==> !Overtaken(After(es[..k]), es[k])
  }

  lemma AlwaysExclusiveStep(front: seq<Event>, e: Event)
    ensures AlwaysExclusive(front + [e]) <==> AlwaysExclusive(front) && Exclusive(After(front + [e]).agent)
  {
    hide After, Exclusive;
    var es := front + [e];
    assert es[..|es|] == es;
    assert forall k :: 0 <= k <= |front| ==> es[..k] == front[..k];
  }

  lemma NeverOvertakenStep(front: seq<Event>, e: Event)
    ensures NeverOvertaken(front + [e]) <==> NeverOvertaken(front) && !Overtaken(After(front), e)
  {
    hide After, Overtaken;
    var es := front + [e];
    assert es[..|front|] == front && es[|front|] == e;
    assert forall k :: 0 <= k < |front| ==> es[..k] == front[..k] && es[k] == front[k];
    if NeverOvertaken(es) {
      assert forall k :: 0 <= k < |front| ==> !Overtaken(After(es[..k]), es[k]);
    }
  }

  lemma ExclusiveAtEnd(es: seq<Event>)
    requires AlwaysExclusive(es)
    ensures Exclusive(After(es).agent)
  {
    assert es[..|es|] == es;
  }

  /** The agent never has both in any state of a run exactly when nothing written in the run is overtaken. */
  lemma {:induction false} ExclusiveIffNotOvertaken(es: seq<Event>)
    ensures AlwaysExclusive(es) <==> NeverOvertaken(es)
  {
    if es == [] {
    } else {
      hide Step, Overtaken, After, AlwaysExclusive, NeverOvertaken, Exclusive;
      var front, e := es[..|es| - 1], es[|es| - 1];
      assert es == front + [e];
      ExclusiveIffNotOvertaken(front);
      AlwaysExclusiveStep(front, e);
      NeverOvertakenStep(front, e);
      AfterStep(front, e);
      if AlwaysExclusive(front) {
        ExclusiveAtEnd(front);
        StepExclusive(After(front), e);
      }
    }
  }

  /** The tool's commands are each done at once, and not between a request's check and its write. */
  predicate CommandsAtomic(es: seq<Event>) {
    es == []
    || (CommandsAtomic(es[..|es| - 1]) && !es[|es| - 1].Begin?
        && (es[|es| - 1].Run? ==> After(es[..|es| - 1]).handling.None?))
  }

  /** What a handler decided still holds. */
  predicate StillHolds(agent: Agent, h: Handling) {
    && (h.effect.Paired? ==> Matches(agent.pairing, h.effect.codeHash, h.at))
    && (h.effect.Rotated? ==> agent.credential != "")
    && !h.effect.Enabled?
  }

  predicate Undisturbed(w: World) {
    && w.commands == map[] && Exclusive(w.agent) && AllActive(w)
    && (w.handling.Some? ==> StillHolds(w.agent, w.handling.value))
  }

  lemma StepUndisturbed(w: World, e: Event)
    requires Undisturbed(w) && !e.Begin? && (e.Run? ==> w.handling.None?)
    ensures Undisturbed(Step(w, e))
  {
    if Writes(e) {
      DoAllActive(w, Taken(w, e), Due(w, e), DueAt(w, e), e.token);
    } else {
      SameMints(w, Step(w, e));
    }
  }

  /** With atomic commands, whatever the requests do: never both a credential and an awaited pairing, and every
      credential handed out goes to the code awaited at that moment. */
  lemma {:induction false} AtomicCommandsAreSafe(es: seq<Event>)
    requires CommandsAtomic(es)
    ensures Undisturbed(After(es))
    ensures Exclusive(After(es).agent)
    ensures forall i :: 0 <= i < |After(es).minted| ==> After(es).minted[i].active
  {
    if es != [] {
      hide Step;
      AtomicCommandsAreSafe(es[..|es| - 1]);
      StepUndisturbed(After(es[..|es| - 1]), es[|es| - 1]);
    }
  }

  /** So with atomic commands a code yields at most one credential. */
  lemma {:induction false} OneCredentialPerCode(es: seq<Event>, i: nat, j: nat)
    requires CommandsAtomic(es) && i < |After(es).minted| && j < |After(es).minted| && i != j
    ensures After(es).minted[i].codeHash != After(es).minted[j].codeHash
  {
    hide After;
    AtomicCommandsAreSafe(es);
    EachCodePairsOnce(es, i, j);
  }

  predicate NoWayIn(agent: Agent) { agent.credential == "" && agent.pairing.None? }

  /** Once unpaired or disabled, and until it is enabled again, the agent has no credential and awaits no code, whatever
      requests were already under way. */
  lemma {:induction false} RevokedUntilEnabled(before: seq<Event>, later: seq<Event>)
    requires CommandsAtomic(before + later) && NoWayIn(After(before).agent)
    requires forall i :: 0 <= i < |later| ==> !(later[i].Run? && later[i].command.EnableApi?)
    ensures NoWayIn(After(before + later).agent)
    decreases |later|
  {
    if later == [] {
      assert before + later == before;
    } else {
      hide After, Step;
      var front, e := later[..|later| - 1], later[|later| - 1];
      assert before + later == (before + front) + [e];
      assert (before + later)[..|before + later| - 1] == before + front;
      RevokedUntilEnabled(before, front);
      AtomicCommandsAreSafe(before + front);
      AfterStep(before + front, e);
      StepRevoked(After(before + front), e);
    }
  }

  lemma StepRevoked(w: World, e: Event)
    requires NoWayIn(w.agent) && Undisturbed(w) && !e.Begin? && !(e.Run? && e.command.EnableApi?)
    ensures NoWayIn(Step(w, e).agent)
  {
  }

  // ----- exactly when a code is awaited, and used, once -----

  /** A pairing is written although the code it was decided on is no longer awaited. */
  predicate PairsTooLate(w: World, e: Event) {
    Later(e) && match Due(w, e)
    case Paired(codeHash) => !Matches(w.agent.pairing, codeHash, DueAt(w, e))
    case _ => false
  }

  predicate AllActive(w: World) {
    forall i :: 0 <= i < |w.minted| ==> w.minted[i].active
  }

  predicate NeverTooLate(es: seq<Event>) {
    es == [] || (NeverTooLate(es[..|es| - 1]) && !PairsTooLate(After(es[..|es| - 1]), es[|es| - 1]))
  }

  lemma StepAllActive(w: World, e: Event)
    ensures AllActive(Step(w, e)) <==> AllActive(w) && !PairsTooLate(w, e)
  {
    hide AllActive, Matches, Do;
    if Writes(e) {
      DoAllActive(w, Taken(w, e), Due(w, e), DueAt(w, e), e.token);
    } else {
      SameMints(w, Step(w, e));
    }
  }

  lemma SameMints(w: World, v: World)
    requires v.minted == w.minted
    ensures AllActive(v) <==> AllActive(w)
  {
  }

  lemma DoAllActive(w: World, v: World, effect: Effect, now: int, token: Token)
    requires v.minted == w.minted && v.agent == w.agent
    ensures AllActive(Do(v, effect, now, token)) <==>
              AllActive(w) && (effect.Paired? ==> Matches(w.agent.pairing, effect.codeHash, now))
  {
    hide Matches;
    var n := |w.minted|;
    var after := Do(v, effect, now, token).minted;
    assert forall i :: 0 <= i < n ==> after[i] == w.minted[i];
    if effect.Paired? {
      assert after[n].active <==> Matches(w.agent.pairing, effect.codeHash, now);
    }
  }

  /** Every credential is handed out to the code awaited at that moment exactly when no pairing is written too
      late. */
  lemma {:induction false} AwaitedCodesOnlyIffNeverTooLate(es: seq<Event>)
    ensures AllActive(After(es)) <==> NeverTooLate(es)
  {
    if es == [] {
      AfterNothing();
    } else {
      hide Step, PairsTooLate;
      AwaitedCodesOnlyIffNeverTooLate(es[..|es| - 1]);
      StepAllActive(After(es[..|es| - 1]), es[|es| - 1]);
    }
  }

  predicate Spent(w: World, codeHash: string) {
    exists i :: 0 <= i < |w.minted| && w.minted[i].codeHash == codeHash
  }

  /** A pairing, its code found awaited when it was decided on, is written later, after a credential was handed out for
      that code. */
  predicate PairsSpentCode(w: World, e: Event) {
    Later(e) && match Due(w, e)
    case Paired(codeHash) => Spent(w, codeHash)
    case _ => false
  }

  /** No code yields two credentials. */
  predicate UsedOnce(w: World) {
    forall i, j :: 0 <= i < j < |w.minted| ==> w.minted[i].codeHash != w.minted[j].codeHash
  }

  predicate NeverSpent(es: seq<Event>) {
    es == [] || (NeverSpent(es[..|es| - 1]) && !PairsSpentCode(After(es[..|es| - 1]), es[|es| - 1]))
  }

  lemma SameUse(w: World, v: World)
    requires v.minted == w.minted
    ensures UsedOnce(v) <==> UsedOnce(w)
  {
  }

  lemma DoUsedOnce(w: World, v: World, effect: Effect, now: int, token: Token)
    requires v.minted == w.minted && v.agent == w.agent
    ensures UsedOnce(Do(v, effect, now, token)) <==> UsedOnce(w) && !(effect.Paired? && Spent(w, effect.codeHash))
  {
    hide Matches;
    var n := |w.minted|;
    var after := Do(v, effect, now, token).minted;
    assert forall i :: 0 <= i < n ==> after[i] == w.minted[i];
    if effect.Paired? {
      assert after[n].codeHash == effect.codeHash;
      if Spent(w, effect.codeHash) {
        var i :| 0 <= i < n && w.minted[i].codeHash == effect.codeHash;
        assert after[i].codeHash == after[n].codeHash;
      }
    }
  }

  /** A code still awaited has not been used. */
  lemma AwaitedIsUnspent(w: World, codeHash: string, now: int)
    requires Inv(w) && Matches(w.agent.pairing, codeHash, now)
    ensures !Spent(w, codeHash)
  {
    hide CodesInOrder, AllGenuine, HandlingSound;
  }

  lemma StepUsedOnce(w: World, e: Event)
    requires Inv(w)
    ensures UsedOnce(Step(w, e)) <==> UsedOnce(w) && !PairsSpentCode(w, e)
  {
    hide UsedOnce, Matches, Spent, Do, Inv;
    if Writes(e) {
      DoUsedOnce(w, Taken(w, e), Due(w, e), DueAt(w, e), e.token);
      if e.Run? && Due(w, e).Paired? {
        AwaitedIsUnspent(w, Due(w, e).codeHash, e.now);
      }
    } else {
      SameUse(w, Step(w, e));
    }
  }

  /** Each code yields at most one credential in a run exactly when no pairing is written after a credential was already
      handed out for its code. */
  lemma {:induction false} SingleUseIffNeverSpent(es: seq<Event>)
    ensures UsedOnce(After(es)) <==> NeverSpent(es)
  {
    if es == [] {
      AfterNothing();
    } else {
      hide Step, PairsSpentCode, UsedOnce, Inv;
      SingleUseIffNeverSpent(es[..|es| - 1]);
      RunKeeps(es[..|es| - 1]);
      StepUsedOnce(After(es[..|es| - 1]), es[|es| - 1]);
    }
  }

  /** A command and a request can both pair with one code, when the command began before the request was handled. */
  lemma {:induction false} OvertakenCommandPairsAgain(code: string, a: Token, b: Token)
    ensures var es := [Run(EnableApi(code), 0, a)] + [Begin(0, PairHere(code))] + [Receive(0, Pair(code))]
                      + [Check(0, 1, Some(code))] + [Write(a)] + [Commit(0, 2, b)];
            var minted := After(es).minted;
            |minted| == 2 && minted[0].codeHash == code && minted[1].codeHash == code && !minted[1].active
  {
    hide After, Step;
    var e0, e1, e2 := Run(EnableApi(code), 0, a), Begin(0, PairHere(code)), Receive(0, Pair(code));
    var e3, e4, e5 := Check(0, 1, Some(code)), Write(a), Commit(0, 2, b);
    AfterNothing();
    assert [] + [e0] == [e0];
    AfterStep([], e0);
    AfterStep([e0], e1);
    AfterStep([e0] + [e1], e2);
    AfterStep([e0] + [e1] + [e2], e3);
    AfterStep([e0] + [e1] + [e2] + [e3], e4);
    AfterStep([e0] + [e1] + [e2] + [e3] + [e4], e5);
    EnabledFirst(code, a);
    CommandBegun(code, a);
    RequestPaired(Step(Step(START, e0), e1), code, a);
    CommandCommits(Step(Step(Step(Step(Step(START, e0), e1), e2), e3), e4), code, b);
  }

  function Awaiting(code: string): Agent {
    Agent(true, "", Some(PairingState(code, PAIRING_CODE_TTL_MS, false)))
  }

  lemma EnabledFirst(code: string, a: Token)
    ensures var w := Step(START, Run(EnableApi(code), 0, a));
            && w.agent == Awaiting(code) && w.requests == map[] && w.handling.None? && w.commands == map[]
            && w.minted == []
  {
  }

  lemma CommandBegun(code: string, a: Token)
    ensures var w := Step(Step(START, Run(EnableApi(code), 0, a)), Begin(0, PairHere(code)));
            && w.agent == Awaiting(code) && w.requests == map[] && w.handling.None? && w.minted == []
            && w.commands == map[0 := (PairHere(code), Awaiting(code))]
  {
    hide Do;
    EnabledFirst(code, a);
  }

  /** A request that pairs, from its receipt to its write. */
  lemma RequestPaired(w: World, code: string, a: Token)
    requires w.agent == Awaiting(code) && w.requests == map[] && w.handling.None?
    ensures var v := Step(Step(Step(w, Receive(0, Pair(code))), Check(0, 1, Some(code))), Write(a));
            && v.agent == Agent(true, a, None) && v.commands == w.commands
            && v.minted == w.minted + [Mint(code, a, 1, true)]
  {
    RequestChecked(w, code);
  }

  lemma RequestChecked(w: World, code: string)
    requires w.agent == Awaiting(code) && w.requests == map[] && w.handling.None?
    ensures Step(Step(w, Receive(0, Pair(code))), Check(0, 1, Some(code)))
            == w.(handling := Some(Handling(Paired(code), 1)))
  {
  }

  lemma CommandCommits(w: World, code: string, b: Token)
    requires w.commands == map[0 := (PairHere(code), Awaiting(code))] && w.agent.pairing.None? && |w.minted| == 1
    ensures Step(w, Commit(0, 2, b)).minted == w.minted + [Mint(code, b, 2, false)]
  {
  }

  /** So can they when the whole command falls between the request's check and its write. */
  lemma {:induction false} CommandWithinRequestPairsToo(code: string, a: Token, b: Token)
    ensures var es := [Run(EnableApi(code), 0, a)] + [Receive(0, Pair(code))] + [Check(0, 1, Some(code))]
                      + [Run(PairHere(code), 1, a)] + [Write(b)];
            var minted := After(es).minted;
            |minted| == 2 && minted[0].codeHash == code && minted[1].codeHash == code && !minted[1].active
  {
    hide After, Step;
    var e0, e1, e2 := Run(EnableApi(code), 0, a), Receive(0, Pair(code)), Check(0, 1, Some(code));
    var e3, e4 := Run(PairHere(code), 1, a), Write(b);
    AfterNothing();
    assert [] + [e0] == [e0];
    AfterStep([], e0);
    AfterStep([e0], e1);
    AfterStep([e0] + [e1], e2);
    AfterStep([e0] + [e1] + [e2], e3);
    AfterStep([e0] + [e1] + [e2] + [e3], e4);
    EnabledFirst(code, a);
    RequestChecked(Step(START, e0), code);
    CommandBetween(Step(Step(Step(START, e0), e1), e2), code, a, b);
  }

  lemma CommandBetween(w: World, code: string, a: Token, b: Token)
    requires w.agent == Awaiting(code) && w.handling == Some(Handling(Paired(code), 1)) && w.minted == []
    ensures Step(Step(w, Run(PairHere(code), 1, a)), Write(b)).minted
            == [Mint(code, a, 1, true), Mint(code, b, 1, false)]
  {
    assert [] + [Mint(code, a, 1, true)] == [Mint(code, a, 1, true)];
  }

  lemma AfterStep(es: seq<Event>, e: Event)
    ensures After(es + [e]) == Step(After(es), e)
  {
    assert (es + [e])[..|es|] == es;
  }

  lemma AfterNothing()
    ensures After([]) == START
  {
  }

  // ----- the objects -----

  /** The configuration as the agent's process and the tool read and replace it. */
  class AgentState {
    var enabled: bool
    var credential: string
    var pairing: Option<PairingState>

    function Load(): Agent
      reads this
    {
      Agent(enabled, credential, pairing)
    }

    constructor ()
      ensures Load() == START.agent
    {
      enabled, credential, pairing := false, "", None;
    }

    method Update(next: Agent)
      modifies this
      ensures Load() == next
    {
      enabled, credential, pairing := next.enabled, next.credential, next.pairing;
    }

    // ----- request handlers -----

    method PairHandler(codeHash: string, now: int, token: Token) returns (ok: bool)
      modifies this
      ensures ok <==> Handled(old(Load()), Pair(codeHash), now).Paired?
      ensures Load() == Applied(old(Load()), Handled(old(Load()), Pair(codeHash), now), now, token)
      ensures ok <==> Awaits(old(Load()), codeHash, now)
      ensures Load() == if ok then Agent(old(enabled), token, None) else old(Load())
    {
      MatchesIsAwaits(Load(), codeHash, now);
      var state := Load();
      if state.pairing.None? || !PairingMatches(state.pairing.value, codeHash, now) {
        return false;
      }
      Update(state.(pairing := None, credential := token));
      return true;
    }

    method RotateSecretHandler(token: Token) returns (ok: bool)
      modifies this
      ensures forall now :: Load() == Applied(old(Load()), Handled(old(Load()), Rotate, now), now, token)
      ensures forall now :: ok <==> Handled(old(Load()), Rotate, now).Rotated?
      ensures ok <==> old(credential) != ""
      ensures Load() == Agent(old(enabled), if ok then token else old(credential), old(pairing))
    {
      var current := Load();
      if current.credential == "" {
        return false;
      }
      Update(current.(credential := token));
      return true;
    }

    method UnpairHandler()
      modifies this
      ensures forall now, token :: Load() == Applied(old(Load()), Unpaired, now, token)
      ensures Load() == Agent(old(enabled), "", None)
    {
      var config := Load();
      Update(config.(credential := "", pairing := None));
    }

    method DisableHandler()
      modifies this
      ensures forall now, token :: Load() == Applied(old(Load()), Disabled, now, token)
      ensures Load() == Agent(false, "", None)
    {
      var config := Load();
      Update(config.(enabled := false, credential := "", pairing := None));
    }

    /** A request from the moment its body has been read: it is refused, and the configuration left alone, unless it is
        signed as the configuration loaded before demands, and the handler agrees. */
    method FinishRequest(loaded: Agent, route: Route, now: int, signature: Signature, token: Token) returns (ok: bool)
      modifies this
      ensures var effect := if Authenticated(loaded, route, now, signature) then Handled(old(Load()), route, now)
                            else Refused;
              (ok <==> !effect.Refused?) && Load() == Applied(old(Load()), effect, now, token)
      ensures ok <==>
                && Signed(loaded, route, now, signature)
                && (route.Pair? ==> Awaits(old(Load()), route.codeHash, now))
                && (route.Rotate? ==> old(credential) != "")
      ensures !ok ==> Load() == old(Load())
      ensures ok ==> credential == (if route.Pair? || route.Rotate? then token else "")
      ensures ok ==> pairing == (if route.Rotate? then old(pairing) else None)
      ensures ok ==> enabled == (!route.Disable? && old(enabled))
    {
      SignedIff(loaded, route, now, signature);
      var secret: string;
      if route.Pair? {
        if loaded.pairing.None? {
          return false;
        }
        if !PairingMatches(loaded.pairing.value, route.codeHash, now) {
          return false;
        }
        secret := route.codeHash;
      } else {
        secret := loaded.credential;
        if secret == "" {
          return false;
        }
      }
      if signature != Some(secret) {
        return false;
      }
      match route {
        case Pair(codeHash) => ok := PairHandler(codeHash, now, token);
        case Rotate => ok := RotateSecretHandler(token);
        case Unpair =>
          UnpairHandler();
          ok := true;
        case Disable =>
          DisableHandler();
          ok := true;
      }
    }

    // ----- commands -----

    method ApiEnable(loaded: Agent, newHash: string, now: int, token: Token) returns (ok: bool)
      modifies this
      ensures ok <==> Decided(loaded, EnableApi(newHash), now).Enabled?
      ensures Load() == Applied(old(Load()), Decided(loaded, EnableApi(newHash), now), now, token)
      ensures ok <==> loaded.credential == ""
      ensures !ok ==> Load() == old(Load())
      ensures ok ==> Load() == Agent(true, old(credential), Some(PairingState(newHash, now + 900_000, false)))
    {
      if |loaded.credential| > 0 {
        return false;
      }
      var config := Load();
      Update(config.(enabled := true, pairing := Some(PairingState(newHash, now + PAIRING_CODE_TTL_MS, false))));
      return true;
    }

    method ApiPair(loaded: Agent, codeHash: string, now: int, token: Token) returns (ok: bool)
      modifies this
      ensures ok <==> Decided(loaded, PairHere(codeHash), now).Paired?
      ensures Load() == Applied(old(Load()), Decided(loaded, PairHere(codeHash), now), now, token)
      ensures ok <==> Awaits(loaded, codeHash, now)
      ensures Load() == if ok then Agent(old(enabled), token, None) else old(Load())
    {
      MatchesIsAwaits(loaded, codeHash, now);
      if loaded.pairing.None? || !PairingMatches(loaded.pairing.value, codeHash, now) {
        return false;
      }
      var config := Load();
      Update(config.(pairing := None, credential := token));
      return true;
    }

    method ApiRotateSecret(loaded: Agent, now: int, token: Token) returns (ok: bool)
      modifies this
      ensures ok <==> Decided(loaded, RotateHere, now).Rotated?
      ensures Load() == Applied(old(Load()), Decided(loaded, RotateHere, now), now, token)
      ensures ok <==> loaded.credential != ""
      ensures Load() == Agent(old(enabled), if ok then token else old(credential), old(pairing))
    {
      if |loaded.credential| == 0 {
        return false;
      }
      var config := Load();
      Update(config.(credential := token));
      return true;
    }

    method ApiUnpair(loaded: Agent, now: int, token: Token)
      modifies this
      ensures Load() == Applied(old(Load()), Decided(loaded, UnpairHere, now), now, token)
      ensures Load() == Agent(old(enabled), "", None)
    {
      var config := Load();
      Update(config.(credential := "", pairing := None));
    }

    method ApiDisable(loaded: Agent, now: int, token: Token)
      modifies this
      ensures Load() == Applied(old(Load()), Decided(loaded, DisableHere, now), now, token)
      ensures Load() == Agent(false, "", None)
    {
      var config := Load();
      Update(config.(enabled := false, credential := "", pairing := None));
    }
  }
}
