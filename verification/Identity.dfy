/** Binding a user to an identity: the plugin asks the agent to watch for a code, the agent's cycles find it, and
    webhooks that may be lost, repeated and reordered report it back to requests that overlap. */
module Identity {
  import opened Sequences
  import opened CodeTokens
  import opened ChallengeStore
  import opened Verifier
  import opened IdentityMapping

  /** The parties' fixed surroundings: hashing, sanitizing, known users and node names. */
  datatype Env = Env(
    hash: string -> string,
    sanitize: string -> string,
    options: Options,
    webhook: Webhook,
    users: set<int>,
    agentNode: string,
    configuredNode: string)

  const MAX_UID: nat := 128

  datatype Registration = Registration(code: string, user: int, expiresAt: int)

  /** A request of the plugin between two of its accesses to the stored mapping. A challenge, once written, still has
      its code to register with the agent. */
  datatype Request =
    | Setting(user: int, change: Fields, code: Option<string>)
    | Merging(user: int, base: Mapping, change: Fields, code: Option<string>)
    | Registering(user: int, drawnCode: string)

  datatype World = World(
    agent: State,
    meta: map<int, Fields>,
    legacy: map<int, Fields>,
    requests: map<nat, Request>,
    drawn: set<string>,
    registrations: seq<Registration>)

  /** `AskAtOnce` and `CallbackAtOnce` are requests nothing comes between. `k` picks the message that arrives. */
  datatype Event =
    | Ask(id: nat, user: int, code: string, now: int) | AskAtOnce(id: nat, user: int, code: string, now: int)
    | Callback(id: nat, k: nat, now: int) | CallbackAtOnce(k: nat, now: int)
    | Merge(id: nat) | Write(id: nat) | Send(id: nat, now: int)
    | Deliver(k: nat) | Agent(e: Verifier.Event)

  function MappingOf(w: World, user: int): Mapping { Read(At(w.meta, user), At(w.legacy, user)) }

  // ----- the plugin's decisions -----

  predicate Open(m: Mapping) { m.status == Unbound || m.status == Pending }

  datatype Verdict = Rejected | Idempotent | Verify(uid: string)

  /** A callback that bears a good signature. */
  function Judged(m: Mapping, f: Finding, env: Env): Verdict {
    var uid := env.sanitize(f.client.uniqueId);
    var node := env.sanitize(env.agentNode);
    if f.wpUserId <= 0 || uid == "" || |uid| > MAX_UID then Rejected
    else if env.configuredNode != "" && node != env.configuredNode then Rejected
    else if f.wpUserId !in env.users then Rejected
    else if m.status == Verified && m.uid == uid then Idempotent
    else if !Open(m) then Rejected
    else Verify(uid)
  }

  /** The sanitized identifier is sanitized once more when it is stored. */
  function Verification(uid: string, now: int, env: Env): Fields {
    VerifiedFields(env.sanitize(uid), env.sanitize(env.sanitize(env.agentNode)), now)
  }

  function Stored(w: World, user: int, base: Mapping, change: Fields): World {
    w.(meta := w.meta[user := Whole(Overlaid(base, Permitted(change)))])
  }

  function With(w: World, id: nat, r: Request): World { w.(requests := w.requests[id := r]) }

  function Without(w: World, id: nat): World { w.(requests := w.requests - {id}) }

  predicate MayAsk(w: World, user: int, code: string, env: Env) {
    user > 0 && env.hash(code) !in w.drawn && Open(MappingOf(w, user))
  }

  function Drawing(w: World, code: string, env: Env): World { w.(drawn := w.drawn + {env.hash(code)}) }

  function ChallengeFor(r: Registration, env: Env): Challenge {
    Challenge(env.hash(r.code), r.user, r.expiresAt, 0, false, env.webhook, None, false)
  }

  /** What cannot happen changes nothing: a code is drawn once, and an identifier serves one request. */
  function Step(w: World, e: Event, env: Env): World {
    match e
    case Ask(id, user, code, now) =>
      if id in w.requests || !MayAsk(w, user, code, env) then w
      else With(Drawing(w, code, env), id, Setting(user, PendingFields(now), Some(code)))
    case AskAtOnce(id, user, code, now) =>
      if id in w.requests || !MayAsk(w, user, code, env) then w
      else
        With(Stored(Drawing(w, code, env), user, MappingOf(w, user), PendingFields(now)), id, Registering(user, code))
    case Callback(id, k, now) =>
      if id in w.requests || k >= |w.agent.sent| then w
      else
        var f := w.agent.sent[k];
        (match Judged(MappingOf(w, f.wpUserId), f, env)
         case Verify(uid) => With(w, id, Setting(f.wpUserId, Verification(uid, now, env), None))
         case _ => w)
    case CallbackAtOnce(k, now) =>
      if k >= |w.agent.sent| then w
      else
        var f := w.agent.sent[k];
        var m := MappingOf(w, f.wpUserId);
        (match Judged(m, f, env)
         case Verify(uid) => Stored(w, f.wpUserId, m, Verification(uid, now, env))
         case _ => w)
    case Merge(id) =>
      if id !in w.requests || !w.requests[id].Setting? then w
      else
        var r := w.requests[id];
        With(w, id, Merging(r.user, MappingOf(w, r.user), r.change, r.code))
    case Write(id) =>
      if id !in w.requests || !w.requests[id].Merging? then w
      else
        var r := w.requests[id];
        var done := Stored(w, r.user, r.base, r.change);
        if r.code.Some? then With(done, id, Registering(r.user, r.code.value)) else Without(done, id)
    case Send(id, now) =>
      if id !in w.requests || !w.requests[id].Registering? then w
      else
        var r := w.requests[id];
        Without(w, id).(registrations := w.registrations + [Registration(r.drawnCode, r.user, (now + 600) * 1000)])
    case Deliver(k) =>
      if k >= |w.registrations| then w
      else
        var c := ChallengeFor(w.registrations[k], env);
        w.(agent := Verifier.Step(w.agent, Register(c), env.options, env.hash))
    case Agent(e) =>
      if e.Register? then w else w.(agent := Verifier.Step(w.agent, e, env.options, env.hash))
  }

  /** Users may come with mappings from before. */
  function Start(meta: map<int, Fields>, legacy: map<int, Fields>): World {
    World(Verifier.START, meta, legacy, map[], {}, [])
  }

  function After(w: World, es: seq<Event>, env: Env): World {
    if es == [] then w else Step(After(w, es[..|es| - 1], env), es[|es| - 1], env)
  }

  // ----- where a verified identity comes from -----

  /** A code issued to `user` was found, in a cycle begun before the code expired, in what the client shows. */
  predicate Grounded(f: Finding, rs: seq<Registration>, env: Env) {
    && env.hash(f.code) == f.codeHash
    && f.code in Candidates(f.client, env.options.fields)
    && exists j :: 0 <= j < |rs| && env.hash(rs[j].code) == f.codeHash && rs[j].user == f.wpUserId
                   && f.verifiedAt <= rs[j].expiresAt
  }

  /** A report of the configured node, or of any where none is configured. */
  predicate OwnNode(env: Env) { env.configuredNode == "" || env.configuredNode == env.sanitize(env.agentNode) }

  /** A report the plugin may act on: of its own node, about a user it knows, with an identifier of 1 to 128 bytes. */
  predicate Trusted(f: Finding, env: Env) {
    && OwnNode(env)
    && f.wpUserId > 0 && f.wpUserId in env.users
    && 1 <= |env.sanitize(f.client.uniqueId)| <= 128
  }

  /** Only a trusted report leads to anything, and the identity it brings is the reported one. A user bound otherwise is
      left alone, one already bound to this identity too. */
  lemma JudgedIff(m: Mapping, f: Finding, env: Env)
    ensures var uid := env.sanitize(f.client.uniqueId);
            && (Judged(m, f, env) == Verify(uid) <==> Trusted(f, env) && m.status in {Unbound, Pending})
            && (Judged(m, f, env) == Idempotent <==> Trusted(f, env) && m.status == Verified && m.uid == uid)
            && (Judged(m, f, env).Verify? ==> Judged(m, f, env).uid == uid)
  {
  }

  /** `uid` is, as stored, that of a client reported for `user`. */
  predicate Reported(user: int, uid: string, sent: seq<Finding>, env: Env) {
    exists i :: 0 <= i < |sent| && sent[i].wpUserId == user && Trusted(sent[i], env)
                && uid == env.sanitize(env.sanitize(sent[i].client.uniqueId))
  }

  predicate Backed(c: Challenge, rs: seq<Registration>, env: Env) {
    exists j :: 0 <= j < |rs| && env.hash(rs[j].code) == c.codeHash && rs[j].user == c.wpUserId
                && rs[j].expiresAt == c.expiresAt
  }

  predicate SoundAgent(s: State, rs: seq<Registration>, env: Env) {
    && (forall h :: h in s.store ==> s.store[h].codeHash == h && Backed(s.store[h], rs, env))
    && (forall i :: 0 <= i < |s.sent| ==> Grounded(s.sent[i], rs, env))
  }

  /** A change sets the status to pending, or to verified with a reported identity. */
  predicate SoundChange(user: int, change: Fields, sent: seq<Finding>, env: Env) {
    change.status == Some(Pending)
    || (change.status == Some(Verified) && change.uid.Some? && Reported(user, change.uid.value, sent, env))
  }

  predicate SoundRequest(r: Request, sent: seq<Finding>, env: Env) {
    r.Registering? || SoundChange(r.user, r.change, sent, env)
  }

  predicate SoundUser(w: World, user: int, env: Env) {
    MappingOf(w, user).status == Verified ==> Reported(user, MappingOf(w, user).uid, w.agent.sent, env)
  }

  predicate Inv(w: World, user: int, env: Env) {
    && SoundAgent(w.agent, w.registrations, env)
    && (forall id :: id in w.requests ==> SoundRequest(w.requests[id], w.agent.sent, env))
    && SoundUser(w, user, env)
  }

  lemma ReportedLater(user: int, uid: string, sent: seq<Finding>, more: seq<Finding>, env: Env)
    requires Reported(user, uid, sent, env)
    ensures Reported(user, uid, sent + more, env)
  {
    var i :| 0 <= i < |sent| && sent[i].wpUserId == user && Trusted(sent[i], env)
             && uid == env.sanitize(env.sanitize(sent[i].client.uniqueId));
    assert (sent + more)[i] == sent[i];
  }

  lemma BackedLater(c: Challenge, rs: seq<Registration>, r: Registration, env: Env)
    requires Backed(c, rs, env)
    ensures Backed(c, rs + [r], env)
  {
    var j :| 0 <= j < |rs| && env.hash(rs[j].code) == c.codeHash && rs[j].user == c.wpUserId
             && rs[j].expiresAt == c.expiresAt;
    assert (rs + [r])[j] == rs[j];
  }

  lemma GroundedLater(f: Finding, rs: seq<Registration>, r: Registration, env: Env)
    requires Grounded(f, rs, env)
    ensures Grounded(f, rs + [r], env)
  {
    var j :| 0 <= j < |rs| && env.hash(rs[j].code) == f.codeHash && rs[j].user == f.wpUserId
             && f.verifiedAt <= rs[j].expiresAt;
    assert (rs + [r])[j] == rs[j];
  }

  lemma SendKeepsAgent(s: State, rs: seq<Registration>, r: Registration, env: Env)
    requires SoundAgent(s, rs, env)
    ensures SoundAgent(s, rs + [r], env)
  {
    hide Backed, Grounded;
    forall h | h in s.store ensures Backed(s.store[h], rs + [r], env) {
      BackedLater(s.store[h], rs, r, env);
    }
    forall i | 0 <= i < |s.sent| ensures Grounded(s.sent[i], rs + [r], env) {
      GroundedLater(s.sent[i], rs, r, env);
    }
  }

  /** A step of the agent adds at most one finding. */
  lemma AgentSends(s: State, e: Verifier.Event, env: Env)
    ensures var t := Verifier.Step(s, e, env.options, env.hash);
            t.sent == s.sent || (|t.sent| == |s.sent| + 1 && t.sent == s.sent + [t.sent[|s.sent|]])
  {
    hide Examined;
  }

  lemma BackedFinding(s: State, rs: seq<Registration>, codeHash: string, f: Finding, env: Env)
    requires codeHash in s.store && Backed(s.store[codeHash], rs, env) && s.store[codeHash].codeHash == codeHash
    requires f.codeHash == codeHash && f.wpUserId == s.store[codeHash].wpUserId
    requires f.verifiedAt <= s.store[codeHash].expiresAt
    requires f.code in Candidates(f.client, env.options.fields) && env.hash(f.code) == codeHash
    ensures Grounded(f, rs, env)
  {
    hide Candidates;
    var c := s.store[codeHash];
    var j :| 0 <= j < |rs| && env.hash(rs[j].code) == c.codeHash && rs[j].user == c.wpUserId
             && rs[j].expiresAt == c.expiresAt;
    assert f.verifiedAt <= rs[j].expiresAt;
  }

  predicate SameChallenge(c: Challenge, d: Challenge) {
    c.codeHash == d.codeHash && c.wpUserId == d.wpUserId && c.expiresAt == d.expiresAt
  }

  lemma StoreStaysBacked(s: State, t: State, rs: seq<Registration>, env: Env)
    requires SoundAgent(s, rs, env) && t.sent == s.sent
    requires forall h :: h in t.store ==> h in s.store && SameChallenge(t.store[h], s.store[h])
    ensures SoundAgent(t, rs, env)
  {
    hide Grounded;
    forall h | h in t.store ensures Backed(t.store[h], rs, env) {
      assert Backed(s.store[h], rs, env);
    }
  }

  lemma LookKeepsAgent(s: State, id: nat, client: Client, rs: seq<Registration>, env: Env)
    requires SoundAgent(s, rs, env) && id in s.cycles
    ensures SoundAgent(Looked(s, id, client, env.options, env.hash), rs, env)
  {
    hide Examined, Backed, Grounded, Candidates;
    var t := Looked(s, id, client, env.options, env.hash);
    if t != s {
      var now := s.cycles[id].now;
      var (store, finding) := Examined(s.store, now, client, env.options, env.hash);
      ExaminedIs(s.store, now, client, env.options, env.hash);
      StoreStaysBacked(s, t.(sent := s.sent), rs, env);
      if finding.Some? {
        BackedFinding(s, rs, finding.value.codeHash, finding.value, env);
      }
    }
  }

  lemma AgentKeeps(s: State, e: Verifier.Event, rs: seq<Registration>, env: Env)
    requires SoundAgent(s, rs, env)
    requires e.Register? ==> Backed(e.challenge, rs, env)
    ensures SoundAgent(Verifier.Step(s, e, env.options, env.hash), rs, env)
  {
    hide Backed, Grounded, Looked;
    match e {
      case Register(c) =>
      case Begin(id, now) =>
        StoreStaysBacked(s, Verifier.Step(s, e, env.options, env.hash), rs, env);
      case Look(id, client) =>
        if id in s.cycles {
          LookKeepsAgent(s, id, client, rs, env);
        }
      case Notified(id, answer) =>
        StoreStaysBacked(s, Verifier.Step(s, e, env.options, env.hash), rs, env);
    }
  }

  lemma AgentStepKeeps(w: World, e: Verifier.Event, user: int, env: Env)
    requires Inv(w, user, env) && (e.Register? ==> Backed(e.challenge, w.registrations, env))
    ensures Inv(w.(agent := Verifier.Step(w.agent, e, env.options, env.hash)), user, env)
  {
    hide SoundAgent, Reported, Verifier.Step;
    AgentKeeps(w.agent, e, w.registrations, env);
    AgentSends(w.agent, e, env);
    var t := Verifier.Step(w.agent, e, env.options, env.hash);
    var more := t.sent[|w.agent.sent|..];
    assert t.sent == w.agent.sent + more;
    if MappingOf(w, user).status == Verified {
      ReportedLater(user, MappingOf(w, user).uid, w.agent.sent, more, env);
    }
    forall id | id in w.requests ensures SoundRequest(w.requests[id], t.sent, env) {
      var r := w.requests[id];
      if !r.Registering? && r.change.status == Some(Verified) {
        ReportedLater(r.user, r.change.uid.value, w.agent.sent, more, env);
      }
    }
  }

  lemma StoredKeeps(w: World, target: int, base: Mapping, change: Fields, user: int, env: Env)
    requires Inv(w, user, env) && SoundChange(target, change, w.agent.sent, env)
    ensures Inv(Stored(w, target, base, change), user, env)
  {
    hide SoundAgent, Reported;
    ReadBack(Overlaid(base, Permitted(change)), At(w.legacy, target));
  }

  lemma WithKeeps(w: World, id: nat, r: Request, user: int, env: Env)
    requires Inv(w, user, env) && SoundRequest(r, w.agent.sent, env)
    ensures Inv(With(w, id, r), user, env)
  {
    hide SoundAgent, SoundRequest, Reported, Read;
  }

  lemma WithoutKeeps(w: World, id: nat, user: int, env: Env)
    requires Inv(w, user, env)
    ensures Inv(Without(w, id), user, env)
  {
    hide SoundAgent, SoundRequest, Reported, Read;
  }

  lemma DrawingKeeps(w: World, code: string, user: int, env: Env)
    requires Inv(w, user, env)
    ensures Inv(Drawing(w, code, env), user, env)
  {
    hide SoundAgent, SoundRequest, Reported, Read;
  }

  lemma SendKeeps(w: World, r: Registration, user: int, env: Env)
    requires Inv(w, user, env)
    ensures Inv(w.(registrations := w.registrations + [r]), user, env)
  {
    hide SoundAgent, SoundRequest, Reported, Read;
    SendKeepsAgent(w.agent, w.registrations, r, env);
  }

  lemma VerificationIsSound(w: World, k: nat, now: int, env: Env)
    requires k < |w.agent.sent| && Trusted(w.agent.sent[k], env)
    ensures var f := w.agent.sent[k];
            SoundChange(f.wpUserId, Verification(env.sanitize(f.client.uniqueId), now, env), w.agent.sent, env)
  {
  }

  lemma StepKeeps(w: World, e: Event, user: int, env: Env)
    requires Inv(w, user, env)
    ensures Inv(Step(w, e, env), user, env)
  {
    hide Inv, SoundAgent, Reported, Read, Verification, Verifier.Step, Judged, Stored, With, Without, Drawing, Backed;
    match e {
      case Ask(id, u, code, now) =>
        DrawingKeeps(w, code, user, env);
        SameAgent(w, code, env);
        WithKeeps(Drawing(w, code, env), id, Setting(u, PendingFields(now), Some(code)), user, env);
      case AskAtOnce(id, u, code, now) =>
        DrawingKeeps(w, code, user, env);
        StoredKeeps(Drawing(w, code, env), u, MappingOf(w, u), PendingFields(now), user, env);
        WithKeeps(Stored(Drawing(w, code, env), u, MappingOf(w, u), PendingFields(now)), id, Registering(u, code),
                  user, env);
      case Callback(id, k, now) =>
        if k < |w.agent.sent| {
          var f := w.agent.sent[k];
          JudgedIff(MappingOf(w, f.wpUserId), f, env);
          if Judged(MappingOf(w, f.wpUserId), f, env).Verify? {
            VerificationIsSound(w, k, now, env);
            WithKeeps(w, id, Setting(f.wpUserId, Verification(env.sanitize(f.client.uniqueId), now, env), None), user,
                      env);
          }
        }
      case CallbackAtOnce(k, now) =>
        if k < |w.agent.sent| {
          var f := w.agent.sent[k];
          JudgedIff(MappingOf(w, f.wpUserId), f, env);
          if Judged(MappingOf(w, f.wpUserId), f, env).Verify? {
            VerificationIsSound(w, k, now, env);
            StoredKeeps(w, f.wpUserId, MappingOf(w, f.wpUserId),
                        Verification(env.sanitize(f.client.uniqueId), now, env), user, env);
          }
        }
      case Merge(id) =>
        if id in w.requests && w.requests[id].Setting? {
          var r := w.requests[id];
          RequestIsSound(w, id, user, env);
          WithKeeps(w, id, Merging(r.user, MappingOf(w, r.user), r.change, r.code), user, env);
        }
      case Write(id) =>
        if id in w.requests && w.requests[id].Merging? {
          var r := w.requests[id];
          RequestIsSound(w, id, user, env);
          StoredKeeps(w, r.user, r.base, r.change, user, env);
          var done := Stored(w, r.user, r.base, r.change);
          if r.code.Some? {
            WithKeeps(done, id, Registering(r.user, r.code.value), user, env);
          } else {
            WithoutKeeps(done, id, user, env);
          }
        }
      case Send(id, now) =>
        if id in w.requests && w.requests[id].Registering? {
          var r := w.requests[id];
          WithoutKeeps(w, id, user, env);
          SameRegistrations(w, id);
          SendKeeps(Without(w, id), Registration(r.drawnCode, r.user, (now + 600) * 1000), user, env);
        }
      case Deliver(k) =>
        if k < |w.registrations| {
          ChallengeIsBacked(w.registrations, k, env);
          AgentStepKeeps(w, Register(ChallengeFor(w.registrations[k], env)), user, env);
        }
      case Agent(e) =>
        if !e.Register? {
          AgentStepKeeps(w, e, user, env);
        }
    }
  }

  lemma SameAgent(w: World, code: string, env: Env)
    ensures Drawing(w, code, env).agent == w.agent
  {
  }

  lemma SameRegistrations(w: World, id: nat)
    ensures Without(w, id).registrations == w.registrations
  {
  }

  lemma RequestIsSound(w: World, id: nat, user: int, env: Env)
    requires Inv(w, user, env) && id in w.requests && !w.requests[id].Registering?
    ensures SoundChange(w.requests[id].user, w.requests[id].change, w.agent.sent, env)
  {
    hide SoundAgent, Reported;
  }

  lemma ChallengeIsBacked(rs: seq<Registration>, k: nat, env: Env)
    requires k < |rs|
    ensures Backed(ChallengeFor(rs[k], env), rs, env)
  {
  }

  lemma {:induction false} RunKeeps(w: World, es: seq<Event>, user: int, env: Env)
    requires Inv(w, user, env)
    ensures Inv(After(w, es, env), user, env)
  {
    if es != [] {
      hide Inv, Step;
      RunKeeps(w, es[..|es| - 1], user, env);
      StepKeeps(After(w, es[..|es| - 1], env), es[|es| - 1], user, env);
    }
  }

  /** Agreement: a user who was not verified before and is now is one the plugin knows, and has the identity of a client
      which its own node reported, after some cycle, begun no later than the expiry sent to the agent, saw it showing a
      code issued to that user. */
  lemma {:induction false} VerifiedMeansFound(meta: map<int, Fields>, legacy: map<int, Fields>, es: seq<Event>,
                                              user: int, env: Env)
    requires MappingOf(Start(meta, legacy), user).status != Verified
    ensures var w := After(Start(meta, legacy), es, env);
            MappingOf(w, user).status == Verified ==>
              exists i, j :: 0 <= i < |w.agent.sent| && 0 <= j < |w.registrations|
                && Agrees(MappingOf(w, user), user, w.agent.sent[i], w.registrations[j], env)
  {
    var start := Start(meta, legacy);
    assert Inv(start, user, env);
    hide After, Candidates, Read, SoundRequest, Trusted;
    RunKeeps(start, es, user, env);
    var w := After(start, es, env);
    var m := MappingOf(w, user);
    if m.status == Verified {
      var i :| 0 <= i < |w.agent.sent| && w.agent.sent[i].wpUserId == user && Trusted(w.agent.sent[i], env)
               && m.uid == env.sanitize(env.sanitize(w.agent.sent[i].client.uniqueId));
      var f := w.agent.sent[i];
      assert Grounded(f, w.registrations, env);
      var j :| 0 <= j < |w.registrations| && env.hash(w.registrations[j].code) == f.codeHash
               && w.registrations[j].user == f.wpUserId && f.verifiedAt <= w.registrations[j].expiresAt;
      assert Agrees(m, user, w.agent.sent[i], w.registrations[j], env);
    }
  }

  /** No code that was found has the hash of another one that was issued. */
  predicate NoCollision(sent: seq<Finding>, rs: seq<Registration>, env: Env) {
    forall i, j :: 0 <= i < |sent| && 0 <= j < |rs| && env.hash(sent[i].code) == env.hash(rs[j].code) ==>
      sent[i].code == rs[j].code
  }

  /** And unless two codes of the run have one hash, it is that very code which the client showed. */
  lemma {:induction false} VerifiedMeansCodeShown(meta: map<int, Fields>, legacy: map<int, Fields>, es: seq<Event>,
                                                  user: int, env: Env)
    requires MappingOf(Start(meta, legacy), user).status != Verified
    requires var w := After(Start(meta, legacy), es, env); NoCollision(w.agent.sent, w.registrations, env)
    ensures var w := After(Start(meta, legacy), es, env);
            MappingOf(w, user).status == Verified ==>
              exists i, j :: 0 <= i < |w.agent.sent| && 0 <= j < |w.registrations|
                && w.agent.sent[i].code == w.registrations[j].code
                && Agrees(MappingOf(w, user), user, w.agent.sent[i], w.registrations[j], env)
  {
    hide After, Candidates, Read;
    VerifiedMeansFound(meta, legacy, es, user, env);
    var w := After(Start(meta, legacy), es, env);
    if MappingOf(w, user).status == Verified {
      var i, j :| 0 <= i < |w.agent.sent| && 0 <= j < |w.registrations|
                  && Agrees(MappingOf(w, user), user, w.agent.sent[i], w.registrations[j], env);
      assert w.agent.sent[i].code == w.registrations[j].code;
    }
  }

  /** The mapping, a finding and a registration tell the same story. */
  predicate Agrees(m: Mapping, user: int, f: Finding, r: Registration, env: Env) {
    && f.wpUserId == user && r.user == user && Trusted(f, env)
    && m.uid == env.sanitize(env.sanitize(f.client.uniqueId))
    && f.verifiedAt <= r.expiresAt
    && f.code in Candidates(f.client, env.options.fields) && env.hash(f.code) == env.hash(r.code)
  }

  /** The agent keeps its own rules in this company: no challenge is reported twice. */
  lemma {:induction false} ReportedOnce(meta: map<int, Fields>, legacy: map<int, Fields>, es: seq<Event>, env: Env)
    ensures Verifier.Inv(After(Start(meta, legacy), es, env).agent, env.options)
    ensures var sent := After(Start(meta, legacy), es, env).agent.sent;
            forall i, j :: 0 <= i < j < |sent| ==> sent[i].codeHash != sent[j].codeHash
  {
    if es != [] {
      hide Verifier.Inv, Verifier.Step, Judged, Read, Stored, Whole;
      ReportedOnce(meta, legacy, es[..|es| - 1], env);
      var w := After(Start(meta, legacy), es[..|es| - 1], env);
      match es[|es| - 1] {
        case Deliver(k) =>
          if k < |w.registrations| {
            Verifier.StepKeeps(w.agent, Register(ChallengeFor(w.registrations[k], env)), env.options, env.hash);
          }
        case Agent(e) => Verifier.StepKeeps(w.agent, e, env.options, env.hash);
        case _ => assert Step(w, es[|es| - 1], env).agent == w.agent by { OthersLeaveAgent(w, es[|es| - 1], env); }
      }
    }
    SentApart(After(Start(meta, legacy), es, env).agent, env.options);
  }

  lemma OthersLeaveAgent(w: World, e: Event, env: Env)
    requires !e.Deliver? && !e.Agent?
    ensures Step(w, e, env).agent == w.agent
  {
    hide Judged, Read, Whole;
  }

  lemma SentApart(s: State, o: Options)
    requires Verifier.Inv(s, o)
    ensures forall i, j :: 0 <= i < j < |s.sent| ==> s.sent[i].codeHash != s.sent[j].codeHash
  {
    hide SoundStore, SoundCycle;
  }

  // ----- where a request comes from, and what it does alone -----

  /** The identity a report brings, as stored: cleaned once on arrival and once more when it is written. */
  function BoundTo(m: Mapping, f: Finding, now: int, env: Env): Mapping {
    Mapping(env.sanitize(env.sanitize(f.client.uniqueId)), Verified, m.boundAt, now, AGENT_AUTO, now,
            env.sanitize(env.sanitize(env.agentNode)))
  }

  /** The event that began a request: a user with an open mapping asking for a code not drawn before, or a trusted
      report about one; and what it set out to change. */
  predicate Begins(w: World, e: Event, id: nat, user: int, change: Fields, code: Option<string>, env: Env) {
    match e
    case Ask(i, u, c, now) =>
      && i == id && u == user && user > 0 && MappingOf(w, user).status in {Unbound, Pending}
      && env.hash(c) !in w.drawn
      && code == Some(c) && change == NOTHING.(status := Some(Pending), how := Some(CHALLENGE), boundAt := Some(now))
    case Callback(i, k, now) =>
      && i == id && k < |w.agent.sent| && w.agent.sent[k].wpUserId == user && Trusted(w.agent.sent[k], env)
      && MappingOf(w, user).status in {Unbound, Pending}
      && code == None && Overlaid(MappingOf(w, user), change) == BoundTo(MappingOf(w, user), w.agent.sent[k], now, env)
    case _ => false
  }

  predicate RequestBegunAt(es: seq<Event>, start: World, j: nat, id: nat, r: Request, env: Env) {
    && j < |es| && !r.Registering?
    && Begins(After(start, es[..j], env), es[j], id, r.user, r.change, r.code, env)
  }

  lemma RequestAppears(w: World, e: Event, id: nat, env: Env)
    requires id in Step(w, e, env).requests && !Step(w, e, env).requests[id].Registering?
    ensures var r := Step(w, e, env).requests[id];
            || Begins(w, e, id, r.user, r.change, r.code, env)
            || (id in w.requests && var q := w.requests[id];
                !q.Registering? && q.user == r.user && q.change == r.change && q.code == r.code)
  {
    hide Verifier.Step, Read, Whole;
    if e.Callback? && e.k < |w.agent.sent| {
      var f := w.agent.sent[e.k];
      JudgedIff(MappingOf(w, f.wpUserId), f, env);
    }
  }

  /** Every request under way, from a code asked for or a report, began when its user's mapping was open. */
  lemma {:induction false} RequestsBeginOpen(start: World, es: seq<Event>, id: nat, env: Env)
    requires start.requests == map[]
    requires id in After(start, es, env).requests && !After(start, es, env).requests[id].Registering?
    ensures exists j :: 0 <= j < |es| && RequestBegunAt(es, start, j, id, After(start, es, env).requests[id], env)
  {
    hide Step, Begins, Read;
    var front, e := es[..|es| - 1], es[|es| - 1];
    var r := After(start, es, env).requests[id];
    assert es[..|front|] == front && es[|front|] == e;
    RequestAppears(After(start, front, env), e, id, env);
    if Begins(After(start, front, env), e, id, r.user, r.change, r.code, env) {
      assert RequestBegunAt(es, start, |front|, id, r, env);
    } else {
      var q := After(start, front, env).requests[id];
      RequestsBeginOpen(start, front, id, env);
      var j :| 0 <= j < |front| && RequestBegunAt(front, start, j, id, q, env);
      assert es[..j] == front[..j] && es[j] == front[j];
      assert RequestBegunAt(es, start, j, id, r, env);
    }
  }

  /** A request that nothing comes between does what it does at once, if its user's mapping is open; else it does
      nothing. */
  lemma {:induction false} UninterruptedIsAtOnce(w: World, id: nat, user: int, code: string, k: nat, now: int, env: Env)
    requires id !in w.requests
    ensures Step(Step(Step(w, Ask(id, user, code, now), env), Merge(id), env), Write(id), env)
            == Step(w, AskAtOnce(id, user, code, now), env)
    ensures Step(Step(Step(w, Callback(id, k, now), env), Merge(id), env), Write(id), env)
            == Step(w, CallbackAtOnce(k, now), env)
  {
    AskAlone(w, id, user, code, now, env);
    CallbackAlone(w, id, k, now, env);
  }

  lemma AskAlone(w: World, id: nat, user: int, code: string, now: int, env: Env)
    requires id !in w.requests
    ensures Step(Step(Step(w, Ask(id, user, code, now), env), Merge(id), env), Write(id), env)
            == Step(w, AskAtOnce(id, user, code, now), env)
  {
    hide Read, Whole, Overlaid, Permitted;
    if MayAsk(w, user, code, env) {
      var asked := Step(w, Ask(id, user, code, now), env);
      var merged := Step(asked, Merge(id), env);
      assert merged.requests == w.requests[id := Merging(user, MappingOf(w, user), PendingFields(now), Some(code))];
      assert merged.requests[id := Registering(user, code)] == w.requests[id := Registering(user, code)];
    }
  }

  lemma CallbackAlone(w: World, id: nat, k: nat, now: int, env: Env)
    requires id !in w.requests
    ensures Step(Step(Step(w, Callback(id, k, now), env), Merge(id), env), Write(id), env)
            == Step(w, CallbackAtOnce(k, now), env)
  {
    hide Read, Whole, Overlaid, Permitted, Judged, Verification;
    if k < |w.agent.sent| && Judged(MappingOf(w, w.agent.sent[k].wpUserId), w.agent.sent[k], env).Verify? {
      var f := w.agent.sent[k];
      var change := Verification(Judged(MappingOf(w, f.wpUserId), f, env).uid, now, env);
      var called := Step(w, Callback(id, k, now), env);
      var merged := Step(called, Merge(id), env);
      assert merged.requests == w.requests[id := Merging(f.wpUserId, MappingOf(w, f.wpUserId), change, None)];
      assert merged.requests - {id} == w.requests;
    }
  }

  /** At once, a user with an open mapping who asks is pending with a code to register; a trusted report about one
      verifies it; and nobody else's mapping changes. */
  lemma AtOnceDoes(w: World, id: nat, user: int, code: string, k: nat, now: int, env: Env)
    ensures user > 0 && MappingOf(w, user).status in {Unbound, Pending} && id !in w.requests
            && env.hash(code) !in w.drawn ==>
              var v := Step(w, AskAtOnce(id, user, code, now), env);
              && MappingOf(v, user) == MappingOf(w, user).(status := Pending, how := CHALLENGE, boundAt := now)
              && id in v.requests && v.requests[id] == Registering(user, code)
              && forall u :: u != user ==> MappingOf(v, u) == MappingOf(w, u)
    ensures k < |w.agent.sent| && Trusted(w.agent.sent[k], env)
            && MappingOf(w, w.agent.sent[k].wpUserId).status in {Unbound, Pending} ==>
              var f := w.agent.sent[k];
              var v := Step(w, CallbackAtOnce(k, now), env);
              && MappingOf(v, f.wpUserId) == BoundTo(MappingOf(w, f.wpUserId), f, now, env)
              && forall u :: u != f.wpUserId ==> MappingOf(v, u) == MappingOf(w, u)
  {
    hide Verifier.Step, Read, Whole, Overlaid, Permitted, Judged, Trusted, Stored;
    assert forall u :: MappingOf(Drawing(w, code, env), u) == MappingOf(w, u);
    StoredReads(Drawing(w, code, env), user, MappingOf(w, user), PendingFields(now));
    PendingDoes(MappingOf(w, user), now);
    if k < |w.agent.sent| {
      var f := w.agent.sent[k];
      JudgedIff(MappingOf(w, f.wpUserId), f, env);
      StoredReads(w, f.wpUserId, MappingOf(w, f.wpUserId), Verification(env.sanitize(f.client.uniqueId), now, env));
      VerificationDoes(MappingOf(w, f.wpUserId), f, now, env);
    }
  }

  /** What is stored is read back, and other users keep theirs. */
  lemma StoredReads(w: World, user: int, base: Mapping, change: Fields)
    ensures MappingOf(Stored(w, user, base, change), user) == Overlaid(base, Permitted(change))
    ensures forall u :: u != user ==> MappingOf(Stored(w, user, base, change), u) == MappingOf(w, u)
  {
    hide Read, Whole, Overlaid, Permitted;
    ReadBack(Overlaid(base, Permitted(change)), At(w.legacy, user));
  }

  lemma PendingDoes(m: Mapping, now: int)
    ensures Overlaid(m, Permitted(PendingFields(now))) == m.(status := Pending, how := CHALLENGE, boundAt := now)
  {
  }

  lemma VerificationDoes(m: Mapping, f: Finding, now: int, env: Env)
    ensures Overlaid(m, Permitted(Verification(env.sanitize(f.client.uniqueId), now, env))) == BoundTo(m, f, now, env)
  {
  }

  /** A request under way is changed by nothing but its own steps, and what it sets out to do by none. */
  lemma RequestsGoOn(w: World, e: Event, id: nat, env: Env)
    requires id in w.requests && !(e.Merge? && e.id == id) && !(e.Write? && e.id == id) && !(e.Send? && e.id == id)
    ensures id in Step(w, e, env).requests && Step(w, e, env).requests[id] == w.requests[id]
  {
    hide Verifier.Step, Read, Judged, Whole, Overlaid, Verification;
  }

  /** The code that a request still holds. */
  function CodeOf(r: Request): Option<string> {
    match r
    case Registering(_, c) => Some(c)
    case Setting(_, _, c) => c
    case Merging(_, _, _, c) => c
  }

  predicate HeldApart(w: World, id: nat, env: Env)
    requires id in w.requests
  {
    var code := CodeOf(w.requests[id]);
    code.Some? ==>
      && env.hash(code.value) in w.drawn && w.requests[id].user > 0
      && (forall i :: 0 <= i < |w.registrations| ==> env.hash(w.registrations[i].code) != env.hash(code.value))
      && (forall other :: other in w.requests && other != id && CodeOf(w.requests[other]).Some? ==>
            env.hash(CodeOf(w.requests[other]).value) != env.hash(code.value))
  }

  predicate RegisteredApart(w: World, env: Env) {
    && (forall i :: 0 <= i < |w.registrations| ==>
          env.hash(w.registrations[i].code) in w.drawn && w.registrations[i].user > 0)
    && (forall i, j :: 0 <= i < j < |w.registrations| ==>
          env.hash(w.registrations[i].code) != env.hash(w.registrations[j].code))
  }

  /** Codes drawn have distinct hashes: no two registrations or requests hold codes of one hash, and all belong to
      users. */
  predicate DrawnOnce(w: World, env: Env) {
    RegisteredApart(w, env) && forall id :: id in w.requests ==> HeldApart(w, id, env)
  }

  /** Asking, or no code at all, and going on with the same code. */
  lemma HoldKeeps(w: World, v: World, id: nat, env: Env)
    requires DrawnOnce(w, env) && v.registrations == w.registrations && id in v.requests
    requires v.requests == w.requests[id := v.requests[id]] && w.drawn <= v.drawn
    requires var code := CodeOf(v.requests[id]);
             || code.None?
             || (id in w.requests && CodeOf(w.requests[id]) == code && v.requests[id].user == w.requests[id].user)
             || (env.hash(code.value) !in w.drawn && env.hash(code.value) in v.drawn && v.requests[id].user > 0)
    ensures DrawnOnce(v, env)
  {
    forall other | other in v.requests ensures HeldApart(v, other, env) {
      if other in w.requests {
        assert HeldApart(w, other, env);
      }
      if id in w.requests {
        assert HeldApart(w, id, env);
      }
    }
  }

  lemma LetGoKeeps(w: World, id: nat, env: Env)
    requires DrawnOnce(w, env)
    ensures DrawnOnce(Without(w, id), env)
  {
    forall other | other in Without(w, id).requests ensures HeldApart(Without(w, id), other, env) {
      assert HeldApart(w, other, env);
    }
  }

  lemma SendApart(w: World, id: nat, now: int, env: Env)
    requires DrawnOnce(w, env) && id in w.requests && w.requests[id].Registering?
    ensures DrawnOnce(Step(w, Send(id, now), env), env)
  {
    var r := w.requests[id];
    var v := Step(w, Send(id, now), env);
    assert HeldApart(w, id, env);
    assert v.registrations == w.registrations + [Registration(r.drawnCode, r.user, (now + 600) * 1000)];
    forall other | other in v.requests ensures HeldApart(v, other, env) {
      assert HeldApart(w, other, env);
    }
  }

  lemma SameDrawn(w: World, v: World, env: Env)
    requires DrawnOnce(w, env)
    requires v.requests == w.requests && v.registrations == w.registrations && v.drawn == w.drawn
    ensures DrawnOnce(v, env)
  {
    forall id | id in v.requests ensures HeldApart(v, id, env) {
      assert HeldApart(w, id, env);
    }
  }

  lemma DrawnOnceStep(w: World, e: Event, env: Env)
    requires DrawnOnce(w, env)
    ensures DrawnOnce(Step(w, e, env), env)
  {
    hide Verifier.Step, Read, Judged, Whole, Overlaid, Verification, DrawnOnce;
    var v := Step(w, e, env);
    match e {
      case Ask(id, user, code, now) =>
        if v != w {
          HoldKeeps(w, v, id, env);
        }
      case AskAtOnce(id, user, code, now) =>
        if v != w {
          HoldKeeps(w, v, id, env);
        }
      case Callback(id, k, now) =>
        if v != w {
          HoldKeeps(w, v, id, env);
        }
      case Merge(id) =>
        if v != w {
          HoldKeeps(w, v, id, env);
        }
      case Write(id) =>
        if id in w.requests && w.requests[id].Merging? {
          if w.requests[id].code.Some? {
            HoldKeeps(w, v, id, env);
          } else {
            LetGoKeeps(w, id, env);
            SameDrawn(Without(w, id), v, env);
          }
        }
      case Send(id, now) =>
        if id in w.requests && w.requests[id].Registering? {
          SendApart(w, id, now, env);
        }
      case _ => SameDrawn(w, v, env);
    }
  }

  /** In every run no two codes handed to the agent have one hash. */
  lemma {:induction false} CodesDrawnOnce(meta: map<int, Fields>, legacy: map<int, Fields>, es: seq<Event>, env: Env)
    ensures DrawnOnce(After(Start(meta, legacy), es, env), env)
  {
    if es != [] {
      hide Step, DrawnOnce;
      CodesDrawnOnce(meta, legacy, es[..|es| - 1], env);
      DrawnOnceStep(After(Start(meta, legacy), es[..|es| - 1], env), es[|es| - 1], env);
    }
  }

  // ----- a verified identity stays -----

  /** Whoever is verified stays so, with the same identity. */
  ghost predicate Stays(w: World, v: World) {
    forall u :: MappingOf(w, u).status == Verified ==>
      MappingOf(v, u).status == Verified && MappingOf(v, u).uid == MappingOf(w, u).uid
  }

  /** A write of a request whose user has been verified since it looked, and not as this request would have it. */
  predicate Overtaken(w: World, e: Event) {
    e.Write? && e.id in w.requests && w.requests[e.id].Merging?
    && var r := w.requests[e.id];
       var m := MappingOf(w, r.user);
       m.status == Verified && !(r.change.status == Some(Verified) && r.change.uid == Some(m.uid))
  }

  /** Every change under way sets a status, and an identity if it verifies. */
  predicate Setters(w: World) {
    forall id :: id in w.requests && !w.requests[id].Registering? ==> Setter(w.requests[id].change)
  }

  predicate Setter(change: Fields) {
    change.status == Some(Pending) || (change.status == Some(Verified) && change.uid.Some?)
  }

  lemma SettersStep(w: World, e: Event, env: Env)
    requires Setters(w)
    ensures Setters(Step(w, e, env))
  {
    hide Verifier.Step, Read, Judged, Whole, Overlaid;
  }

  lemma StoredStays(w: World, user: int, base: Mapping, change: Fields)
    requires Setter(change)
    ensures Stays(w, Stored(w, user, base, change)) <==>
              (MappingOf(w, user).status == Verified ==>
                 change.status == Some(Verified) && change.uid == Some(MappingOf(w, user).uid))
  {
    var v := Stored(w, user, base, change);
    ReadBack(Overlaid(base, Permitted(change)), At(w.legacy, user));
    assert forall u :: u != user ==> MappingOf(v, u) == MappingOf(w, u);
    if Stays(w, v) && MappingOf(w, user).status == Verified {
      assert MappingOf(v, user).status == Verified;
    }
  }

  lemma SameMeta(w: World, v: World)
    requires v.meta == w.meta && v.legacy == w.legacy
    ensures Stays(w, v)
    ensures forall u: World :: Stays(u, w) <==> Stays(u, v)
  {
    assert forall u :: MappingOf(v, u) == MappingOf(w, u);
  }

  /** A step unsettles a verified identity exactly when it is an overtaken write. */
  lemma StepStays(w: World, e: Event, env: Env)
    requires Setters(w)
    ensures Stays(w, Step(w, e, env)) <==> !Overtaken(w, e)
  {
    hide Verifier.Step, Read, Stays;
    match e {
      case Write(id) =>
        if id in w.requests && w.requests[id].Merging? {
          var r := w.requests[id];
          StoredStays(w, r.user, r.base, r.change);
          SameMeta(Stored(w, r.user, r.base, r.change), Step(w, e, env));
        } else {
          SameMeta(w, w);
        }
      case AskAtOnce(id, user, code, now) =>
        if id in w.requests || !MayAsk(w, user, code, env) {
          SameMeta(w, w);
        } else {
          StoredStays(w, user, MappingOf(w, user), PendingFields(now));
          SameMeta(Stored(w, user, MappingOf(w, user), PendingFields(now)), Step(w, e, env));
        }
      case CallbackAtOnce(k, now) =>
        if k < |w.agent.sent| && Judged(MappingOf(w, w.agent.sent[k].wpUserId), w.agent.sent[k], env).Verify? {
          var f := w.agent.sent[k];
          var uid := Judged(MappingOf(w, f.wpUserId), f, env).uid;
          StoredStays(w, f.wpUserId, MappingOf(w, f.wpUserId), Verification(uid, now, env));
        } else {
          SameMeta(w, w);
        }
      case Ask(id, user, code, now) => SameMeta(w, Step(w, e, env));
      case Callback(id, k, now) => SameMeta(w, Step(w, e, env));
      case Merge(id) => SameMeta(w, Step(w, e, env));
      case Send(id, now) => SameMeta(w, Step(w, e, env));
      case Deliver(k) => SameMeta(w, Step(w, e, env));
      case Agent(e) => SameMeta(w, Step(w, Agent(e), env));
    }
  }

  lemma {:induction false} SettersRun(w: World, es: seq<Event>, env: Env)
    requires Setters(w)
    ensures Setters(After(w, es, env))
  {
    if es != [] {
      hide Step, Setters;
      SettersRun(w, es[..|es| - 1], env);
      SettersStep(After(w, es[..|es| - 1], env), es[|es| - 1], env);
    }
  }

  /** Through a whole run, each step keeps every verified identity. */
  ghost predicate AlwaysStays(w: World, es: seq<Event>, env: Env) {
    es == []
    || (AlwaysStays(w, es[..|es| - 1], env) && Stays(After(w, es[..|es| - 1], env), After(w, es, env)))
  }

  predicate NeverOvertaken(w: World, es: seq<Event>, env: Env) {
    es == []
    || (NeverOvertaken(w, es[..|es| - 1], env) && !Overtaken(After(w, es[..|es| - 1], env), es[|es| - 1]))
  }

  /** Verified identities never change in a run exactly when none of its writes is overtaken. */
  lemma {:induction false} StaysIffNeverOvertaken(w: World, es: seq<Event>, env: Env)
    requires Setters(w)
    ensures AlwaysStays(w, es, env) <==> NeverOvertaken(w, es, env)
  {
    if es != [] {
      hide Step, Setters, Stays, Overtaken;
      var front := es[..|es| - 1];
      StaysIffNeverOvertaken(w, front, env);
      SettersRun(w, front, env);
      StepStays(After(w, front, env), es[|es| - 1], env);
    }
  }

  /** And then whoever was verified at some moment is verified with the same identity at every later one. */
  lemma {:induction false} VerifiedForGood(w: World, before: seq<Event>, later: seq<Event>, user: int, env: Env)
    requires AlwaysStays(w, before + later, env)
    requires MappingOf(After(w, before, env), user).status == Verified
    ensures var early, late := MappingOf(After(w, before, env), user), MappingOf(After(w, before + later, env), user);
            late.status == Verified && late.uid == early.uid
    decreases |later|
  {
    hide Step, Read;
    if later == [] {
      assert before + later == before;
    } else {
      var front := later[..|later| - 1];
      assert (before + later)[..|before + later| - 1] == before + front;
      VerifiedForGood(w, before, front, user, env);
      assert Stays(After(w, before + front, env), After(w, before + later, env));
    }
  }

  /** Requests nothing comes between. */
  predicate RequestsAtOnce(es: seq<Event>) {
    forall i :: 0 <= i < |es| ==> !es[i].Ask? && !es[i].Callback?
  }

  predicate OnlyRegistering(w: World) {
    forall id :: id in w.requests ==> w.requests[id].Registering?
  }

  lemma OnlyRegisteringStep(w: World, e: Event, env: Env)
    requires OnlyRegistering(w) && !e.Ask? && !e.Callback?
    ensures OnlyRegistering(Step(w, e, env))
  {
    hide Verifier.Step, Read, Judged, Whole, Overlaid;
  }

  /** Then repeated and reordered callbacks never change a verified identity. */
  lemma {:induction false} AtOnceIsStable(w: World, es: seq<Event>, env: Env)
    requires OnlyRegistering(w) && RequestsAtOnce(es)
    ensures NeverOvertaken(w, es, env) && AlwaysStays(w, es, env)
    ensures OnlyRegistering(After(w, es, env))
  {
    if es != [] {
      hide Step, Stays;
      AtOnceIsStable(w, es[..|es| - 1], env);
      OnlyRegisteringStep(After(w, es[..|es| - 1], env), es[|es| - 1], env);
      StepStays(After(w, es[..|es| - 1], env), es[|es| - 1], env);
    }
  }

  lemma SettledStep(w: World, e: Event, user: int, env: Env)
    requires OnlyRegistering(w) && !e.Ask? && !e.Callback?
    requires MappingOf(w, user).status !in {Unbound, Pending}
    ensures MappingOf(Step(w, e, env), user) == MappingOf(w, user)
  {
    hide Verifier.Step, Read, Judged, Whole, Overlaid;
    if e.CallbackAtOnce? && e.k < |w.agent.sent| {
      var f := w.agent.sent[e.k];
      JudgedIff(MappingOf(w, f.wpUserId), f, env);
    }
  }

  /** And then no request touches a user whose binding is decided, whether verified, revoked or of unknown status. */
  lemma {:induction false} SettledUntouched(w: World, es: seq<Event>, user: int, env: Env)
    requires OnlyRegistering(w) && RequestsAtOnce(es)
    requires MappingOf(w, user).status !in {Unbound, Pending}
    ensures MappingOf(After(w, es, env), user) == MappingOf(w, user)
  {
    if es != [] {
      hide Step, Stays, Read;
      AtOnceIsStable(w, es[..|es| - 1], env);
      SettledUntouched(w, es[..|es| - 1], user, env);
      SettledStep(After(w, es[..|es| - 1], env), es[|es| - 1], user, env);
    }
  }

  // ----- a verified identity that does not stay -----

  lemma AfterStep(w: World, es: seq<Event>, e: Event, env: Env)
    ensures After(w, es + [e], env) == Step(After(w, es, env), e, env)
  {
    hide Step;
    assert (es + [e])[..|es|] == es;
  }

  /** A surrounding in which a client may show a code as its whole nickname. */
  predicate Plain(env: Env, user: int, code: string, uid: string) {
    && user > 0 && user in env.users && env.configuredNode == ""
    && env.options.fields == [Nickname] && env.options.maxMatchesPerCycle > 0 && env.options.maxAttempts > 0
    && MIN_CODE <= |code| <= MAX_CODE && (forall k :: 0 <= k < |code| ==> IsCodeChar(code[k]))
    && uid != "" && |uid| <= MAX_UID && env.sanitize(uid) == uid
  }

  function Showing(code: string, uid: string): Client { Client(true, uid, code, None, None) }

  lemma {:induction false} WholeRun(code: string)
    requires forall k :: 0 <= k < |code| ==> IsCodeChar(code[k])
    ensures RunLength(code) == |code|
  {
    if code != "" {
      WholeRun(code[1..]);
    }
  }

  lemma OneCandidate(code: string, uid: string)
    requires MIN_CODE <= |code| <= MAX_CODE && (forall k :: 0 <= k < |code| ==> IsCodeChar(code[k]))
    ensures Candidates(Showing(code, uid), [Nickname]) == [code]
  {
    WholeRun(code);
    TokensStep(code);
    assert code[..|code|] == code && code[|code|..] == "";
    assert [Nickname][..0] == [];
  }

  /** The agent, asked to watch for the code, finds it. */
  lemma AgentFinds(user: int, code: string, uid: string, expiresAt: int, env: Env)
    requires Plain(env, user, code, uid) && 0 <= expiresAt
    ensures var c := ChallengeFor(Registration(code, user, expiresAt), env);
            var s1 := Verifier.Step(Verifier.START, Register(c), env.options, env.hash);
            var s2 := Verifier.Step(s1, Begin(0, 0), env.options, env.hash);
            var s3 := Verifier.Step(s2, Look(0, Showing(code, uid)), env.options, env.hash);
            s3.sent == [Finding(env.hash(code), user, 0, code, Showing(code, uid))]
  {
    hide Candidates;
    var c := ChallengeFor(Registration(code, user, expiresAt), env);
    var s1 := Verifier.Step(Verifier.START, Register(c), env.options, env.hash);
    var s2 := Verifier.Step(s1, Begin(0, 0), env.options, env.hash);
    assert env.hash(code) in s2.store && s2.store[env.hash(code)] == c;
    OneCandidate(code, uid);
    assert FirstActive(s2.store, [code], 0, env.hash) == Some(code);
  }

  function Watched(user: int, code: string, uid: string): seq<Event> {
    [AskAtOnce(0, user, code, 0)] + [Send(0, 0)] + [Deliver(0)] + [Agent(Begin(0, 0))]
    + [Agent(Look(0, Showing(code, uid)))]
  }

  /** A user who asks for a code and shows it is reported. */
  lemma WatchedIsFound(user: int, code: string, uid: string, env: Env)
    requires Plain(env, user, code, uid)
    ensures var w := After(Start(map[], map[]), Watched(user, code, uid), env);
            && w.agent.sent == [Finding(env.hash(code), user, 0, code, Showing(code, uid))]
            && w.drawn == {env.hash(code)} && w.requests == map[] && w.legacy == map[]
            && MappingOf(w, user).status == Pending
  {
    hide After, Step;
    var w0 := Start(map[], map[]);
    var e1, e2, e3 := AskAtOnce(0, user, code, 0), Send(0, 0), Deliver(0);
    var e4, e5 := Agent(Begin(0, 0)), Agent(Look(0, Showing(code, uid)));
    assert [] + [e1] == [e1];
    AfterNothing(w0, env);
    AfterStep(w0, [], e1, env);
    AfterStep(w0, [e1], e2, env);
    AfterStep(w0, [e1] + [e2], e3, env);
    AfterStep(w0, [e1] + [e2] + [e3], e4, env);
    AfterStep(w0, [e1] + [e2] + [e3] + [e4], e5, env);
    AskedAndSent(user, code, uid, env);
    AgentWatches(Step(Step(w0, e1, env), e2, env), user, code, uid, env);
  }

  lemma AskedAndSent(user: int, code: string, uid: string, env: Env)
    requires Plain(env, user, code, uid)
    ensures var w := Step(Step(Start(map[], map[]), AskAtOnce(0, user, code, 0), env), Send(0, 0), env);
            && w.agent == Verifier.START && w.registrations == [Registration(code, user, 600000)]
            && w.drawn == {env.hash(code)} && w.requests == map[] && w.legacy == map[]
            && MappingOf(w, user).status == Pending
  {
    var asked := Step(Start(map[], map[]), AskAtOnce(0, user, code, 0), env);
    assert asked.requests == map[0 := Registering(user, code)];
    assert asked.registrations + [Registration(code, user, 600000)] == [Registration(code, user, 600000)];
  }

  lemma AgentWatches(w: World, user: int, code: string, uid: string, env: Env)
    requires Plain(env, user, code, uid)
    requires w.agent == Verifier.START && w.registrations == [Registration(code, user, 600000)]
    ensures var v := Step(Step(Step(w, Deliver(0), env), Agent(Begin(0, 0)), env),
                          Agent(Look(0, Showing(code, uid))), env);
            && v.agent.sent == [Finding(env.hash(code), user, 0, code, Showing(code, uid))]
            && v.drawn == w.drawn && v.requests == w.requests && v.legacy == w.legacy && v.meta == w.meta
  {
    hide Verifier.Step, Plain;
    AgentFinds(user, code, uid, 600000, env);
  }

  lemma AfterNothing(w: World, env: Env)
    ensures After(w, [], env) == w
  {
  }

  /** A verified user is pending again, if a second request for a code looked before the verification and writes after
      it. */
  lemma {:induction false} LateChallengeUndoesVerification(user: int, code: string, second: string,
                                                           uid: string, env: Env)
    requires Plain(env, user, code, uid) && env.hash(second) != env.hash(code)
    ensures var start := Start(map[], map[]);
            var es := Watched(user, code, uid) + [Ask(1, user, second, 0)] + [CallbackAtOnce(0, 0)];
            && MappingOf(After(start, es, env), user).status == Verified
            && MappingOf(After(start, es, env), user).uid == uid
            && MappingOf(After(start, es + [Merge(1)] + [Write(1)], env), user).status == Pending
  {
    hide After, Watched, Step, Read;
    var w0 := Start(map[], map[]);
    var es := Watched(user, code, uid);
    WatchedIsFound(user, code, uid, env);
    var e1, e2, e3, e4 := Ask(1, user, second, 0), CallbackAtOnce(0, 0), Merge(1), Write(1);
    AfterStep(w0, es, e1, env);
    AfterStep(w0, es + [e1], e2, env);
    AfterStep(w0, es + [e1] + [e2], e3, env);
    AfterStep(w0, es + [e1] + [e2] + [e3], e4, env);
    AskThenVerified(After(w0, es, env), user, code, second, uid, env);
    LateWrite(After(w0, es + [e1] + [e2], env), user, second, env);
  }

  lemma AskThenVerified(w: World, user: int, code: string, second: string, uid: string, env: Env)
    requires Plain(env, user, code, uid) && env.hash(second) != env.hash(code)
    requires w.agent.sent == [Finding(env.hash(code), user, 0, code, Showing(code, uid))]
    requires w.drawn == {env.hash(code)} && w.requests == map[] && MappingOf(w, user).status == Pending
    ensures var v := Step(Step(w, Ask(1, user, second, 0), env), CallbackAtOnce(0, 0), env);
            && MappingOf(v, user).status == Verified && MappingOf(v, user).uid == uid
            && 1 in v.requests && v.requests[1] == Setting(user, PendingFields(0), Some(second))
  {
    var asked := Step(w, Ask(1, user, second, 0), env);
    assert 1 in asked.requests && MappingOf(asked, user) == MappingOf(w, user);
  }

  lemma LateWrite(w: World, user: int, second: string, env: Env)
    requires 1 in w.requests && w.requests[1] == Setting(user, PendingFields(0), Some(second))
    ensures MappingOf(Step(Step(w, Merge(1), env), Write(1), env), user).status == Pending
  {
    var m := Step(w, Merge(1), env);
    assert 1 in m.requests && m.requests[1].Merging?;
  }

  // ----- the plugin's two request methods, done without interruption -----

  datatype Reply = Reply(status: int, registration: Option<Registration>)

  /** The code is drawn by the caller; `sentAt` is the time when it is registered. */
  method IdentityMeChallenge(mappings: Mappings, user: int, code: string, now: int, sentAt: int) returns (r: Reply)
    modifies mappings`meta
    ensures var was := old(mappings.Get(user));
            && (r.status == 401 <==> user <= 0)
            && (r.status == 409 <==> user > 0 && was.status !in {Unbound, Pending})
            && (r.status == 200 <==> user > 0 && was.status in {Unbound, Pending})
            && (r.status == 200 ==>
                  && r.registration == Some(Registration(code, user, (sentAt + 600) * 1000))
                  && mappings.Get(user) == was.(status := Pending, how := CHALLENGE, boundAt := now))
            && (r.status != 200 ==> r.registration == None && mappings.meta == old(mappings.meta))
    ensures forall v :: v != user ==> mappings.Get(v) == old(mappings.Get(v))
  {
    if user <= 0 {
      return Reply(401, None);
    }
    var mapping := mappings.Get(user);
    if mapping.status != Unbound && mapping.status != Pending {
      return Reply(409, None);
    }
    mappings.Set(user, PendingFields(now));
    return Reply(200, Some(Registration(code, user, (sentAt + 600) * 1000)));
  }

  /** The signature of the callback has been checked. */
  method IdentityCallback(mappings: Mappings, f: Finding, now: int, env: Env) returns (r: Reply)
    modifies mappings`meta
    ensures var verdict := Judged(old(mappings.Get(f.wpUserId)), f, env);
            && (r.status == 200 <==> !verdict.Rejected?)
            && (verdict.Verify? ==> mappings.Get(f.wpUserId)
                                      == Overlaid(old(mappings.Get(f.wpUserId)), Verification(verdict.uid, now, env)))
            && (!verdict.Verify? ==> mappings.meta == old(mappings.meta))
    ensures var uid := env.sanitize(f.client.uniqueId);
            var wellFormed := f.wpUserId > 0 && 1 <= |uid| <= 128;
            var known := f.wpUserId in env.users;
            var was := old(mappings.Get(f.wpUserId));
            var open, same := was.status in {Unbound, Pending}, was.status == Verified && was.uid == uid;
            && (r.status == 400 <==> !wellFormed)
            && (r.status == 403 <==> wellFormed && !OwnNode(env))
            && (r.status == 404 <==> wellFormed && OwnNode(env) && !known)
            && (r.status == 409 <==> Trusted(f, env) && !open && !same)
            && (r.status == 200 <==> Trusted(f, env) && (open || same))
            && (r.status == 200 && open ==> mappings.Get(f.wpUserId) == BoundTo(was, f, now, env))
            && (r.status != 200 || same ==> mappings.meta == old(mappings.meta))
            && r.registration == None
    ensures forall v :: v != f.wpUserId ==> mappings.Get(v) == old(mappings.Get(v))
  {
    var uid := env.sanitize(f.client.uniqueId);
    var node := env.sanitize(env.agentNode);
    if f.wpUserId <= 0 || uid == "" || |uid| > MAX_UID {
      return Reply(400, None);
    }
    if env.configuredNode != "" && node != env.configuredNode {
      return Reply(403, None);
    }
    if f.wpUserId !in env.users {
      return Reply(404, None);
    }
    var mapping := mappings.Get(f.wpUserId);
    if mapping.status == Verified && mapping.uid == uid {
      return Reply(200, None);
    }
    if mapping.status != Unbound && mapping.status != Pending {
      return Reply(409, None);
    }
    mappings.MarkVerified(f.wpUserId, uid, node, now, env.sanitize);
    return Reply(200, None);
  }
}
