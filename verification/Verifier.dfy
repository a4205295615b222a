/** The verification worker: cycles that look for issued codes in what clients display, overlapping at every await. */
module Verifier {
  import opened Sequences
  import opened CodeTokens
  import opened ChallengeStore

  datatype TextField = Nickname | Description | AwayMessage

  datatype Options = Options(fields: seq<TextField>, maxMatchesPerCycle: nat, maxAttempts: nat)

  /** A client as a cycle sees it; an absent unique identifier counts like an empty one. */
  datatype Client = Client(
    isPlayer: bool,
    uniqueId: string,
    nickname: string,
    description: Option<string>,
    awayMessage: Option<string>)

  /** The result a webhook carries, with the code and the client it rests on. */
  datatype Finding = Finding(codeHash: string, wpUserId: int, verifiedAt: int, code: string, client: Client)

  datatype Result = Result(finding: Finding, delivered: bool)

  /** A cycle begun at `now`; while it awaits a webhook's answer it looks at no client. */
  datatype Cycle = Cycle(now: int, results: seq<Result>, awaiting: Option<Finding>)

  datatype Answer = Accepted | NetworkError | OtherError

  datatype State = State(store: Store, registered: set<string>, cycles: map<nat, Cycle>, sent: seq<Finding>)

  const START: State := State(map[], {}, map[], [])

  datatype Event =
    | Register(challenge: Challenge) | Begin(id: nat, now: int)
    | Look(id: nat, client: Client) | Notified(id: nat, answer: Answer)

  // ----- matching -----

  function TextOf(client: Client, field: TextField): string {
    match field
    case Nickname => client.nickname
    case Description => if client.description.Some? then client.description.value else ""
    case AwayMessage => if client.awayMessage.Some? then client.awayMessage.value else ""
  }

  function Candidates(client: Client, fields: seq<TextField>): seq<string> {
    if fields == [] then []
    else Candidates(client, fields[..|fields| - 1]) + FindTokens(TextOf(client, fields[|fields| - 1]))
  }

  /** The first code an active challenge was registered for. */
  function FirstActive(s: Store, codes: seq<string>, now: int, hash: string -> string): (code: Option<string>)
    ensures code.Some? ==> code.value in codes && Active(s, hash(code.value), now)
    ensures code.None? ==> forall c :: c in codes ==> !Active(s, hash(c), now)
  {
    if codes == [] then None
    else if Active(s, hash(codes[0]), now) then Some(codes[0])
    else FirstActive(s, codes[1..], now, hash)
  }

  /** What a cycle does with one client: the store, and the finding it sends out, if any. */
  function Examined(s: Store, now: int, client: Client, o: Options, hash: string -> string): (Store, Option<Finding>) {
    match FirstActive(s, Candidates(client, o.fields), now, hash)
    case None => (s, None)
    case Some(code) =>
      var h := hash(code);
      var c := s[h].(attempts := s[h].attempts + 1);
      if c.attempts > o.maxAttempts then (s[h := c.(consumed := true)], None)
      else if client.uniqueId == "" then (s[h := c], None)
      else (s[h := c.(consumed := true, verifiedAt := Some(now))], Some(Finding(h, c.wpUserId, now, code, client)))
  }

  // ----- steps -----

  predicate Unused(c: Challenge) { c.attempts == 0 && !c.consumed && !c.delivered && c.verifiedAt.None? }

  function Looked(s: State, id: nat, client: Client, o: Options, hash: string -> string): State
    requires id in s.cycles
  {
    var cycle := s.cycles[id];
    if cycle.awaiting.Some? || !client.isPlayer || |cycle.results| >= o.maxMatchesPerCycle then s
    else
      var (store, finding) := Examined(s.store, cycle.now, client, o, hash);
      s.(store := store, cycles := s.cycles[id := cycle.(awaiting := finding)],
         sent := if finding.Some? then s.sent + [finding.value] else s.sent)
  }

  function Answered(s: State, id: nat, answer: Answer): State
    requires id in s.cycles
  {
    var cycle := s.cycles[id];
    if cycle.awaiting.None? then s
    else
      var finding := cycle.awaiting.value;
      match answer
      case Accepted =>
        s.(store := Delivered(s.store, finding.codeHash),
           cycles := s.cycles[id := Cycle(cycle.now, cycle.results + [Result(finding, true)], None)])
      case NetworkError =>
        s.(cycles := s.cycles[id := Cycle(cycle.now, cycle.results + [Result(finding, false)], None)])
      case OtherError => s.(cycles := s.cycles - {id})
  }

  /** A hash is registered once; what cannot happen changes nothing. */
  function Step(s: State, e: Event, o: Options, hash: string -> string): State {
    match e
    case Register(c) =>
      if c.codeHash in s.registered || !Unused(c) then s
      else s.(store := s.store[c.codeHash := c], registered := s.registered + {c.codeHash})
    case Begin(id, now) =>
      if id in s.cycles then s
      else s.(store := Pruned(s.store, now), cycles := s.cycles[id := Cycle(now, [], None)])
    case Look(id, client) => if id in s.cycles then Looked(s, id, client, o, hash) else s
    case Notified(id, answer) => if id in s.cycles then Answered(s, id, answer) else s
  }

  function Run(es: seq<Event>, o: Options, hash: string -> string): State {
    if es == [] then START else Step(Run(es[..|es| - 1], o, hash), es[|es| - 1], o, hash)
  }

  // ----- every run -----

  /** A challenge in the store was registered; it is consumed once sent, or once tried too often. */
  predicate SoundStore(s: State, o: Options) {
    forall h :: h in s.store ==>
      && h in s.registered && s.store[h].codeHash == h
      && s.store[h].attempts <= o.maxAttempts + 1
      && (s.store[h].attempts > o.maxAttempts ==> s.store[h].consumed)
  }

  /** What was sent was sent once for a registered hash, which can be found no more. */
  predicate SentOnce(s: State) {
    && (forall i :: 0 <= i < |s.sent| ==>
          && s.sent[i].codeHash in s.registered
          && (s.sent[i].codeHash in s.store ==> s.store[s.sent[i].codeHash].consumed))
    && (forall i, j :: 0 <= i < j < |s.sent| ==> s.sent[i].codeHash != s.sent[j].codeHash)
  }

  predicate DistinctResults(rs: seq<Result>) {
    forall i, j :: 0 <= i < j < |rs| ==> rs[i].finding.codeHash != rs[j].finding.codeHash
  }

  /** The findings of a cycle, answered or awaited. */
  function Findings(c: Cycle): seq<Result> {
    c.results + (if c.awaiting.Some? then [Result(c.awaiting.value, false)] else [])
  }

  predicate SoundCycle(c: Cycle, sent: seq<Finding>, o: Options) {
    && |Findings(c)| <= o.maxMatchesPerCycle
    && DistinctResults(Findings(c))
    && (forall i :: 0 <= i < |Findings(c)| ==> Findings(c)[i].finding in sent)
  }

  predicate Inv(s: State, o: Options) {
    && SoundStore(s, o) && SentOnce(s)
    && (forall id :: id in s.cycles ==> SoundCycle(s.cycles[id], s.sent, o))
  }

  lemma ExaminedIs(s: Store, now: int, client: Client, o: Options, hash: string -> string)
    ensures var (store, finding) := Examined(s, now, client, o, hash);
            && store.Keys == s.Keys
            && (finding.Some? ==>
                  && Active(s, finding.value.codeHash, now) && store[finding.value.codeHash].consumed
                  && finding.value.wpUserId == s[finding.value.codeHash].wpUserId && finding.value.verifiedAt == now
                  && finding.value.code in Candidates(client, o.fields)
                  && finding.value.codeHash == hash(finding.value.code)
                  && finding.value.client == client && client.uniqueId != "")
            && (forall h :: h in s ==>
                  && store[h].codeHash == s[h].codeHash && (s[h].consumed ==> store[h].consumed)
                  && store[h].wpUserId == s[h].wpUserId && store[h].expiresAt == s[h].expiresAt
                  && store[h].delivered == s[h].delivered
                  && store[h].verifiedAt ==
                       (if finding.Some? && finding.value.codeHash == h then Some(now) else s[h].verifiedAt)
                  && (store[h].attempts == s[h].attempts
                      || (!s[h].consumed && store[h].attempts == s[h].attempts + 1))
                  && (store[h].attempts > o.maxAttempts && !store[h].consumed ==> store[h] == s[h]))
  {
    hide Candidates;
  }

  lemma StoreKeeps(s: State, store: Store, o: Options)
    requires Inv(s, o) && SoundStore(s.(store := store), o)
    requires forall h :: h in s.store && h in store && s.store[h].consumed ==> store[h].consumed
    requires forall h :: h in store ==> h in s.store
    ensures Inv(s.(store := store), o)
  {
    hide SoundStore;
  }

  lemma CycleKeeps(s: State, id: nat, c: Cycle, o: Options)
    requires Inv(s, o) && SoundCycle(c, s.sent, o)
    ensures Inv(s.(cycles := s.cycles[id := c]), o)
  {
    hide SoundCycle;
  }

  lemma RegisterKeeps(s: State, c: Challenge, o: Options)
    requires Inv(s, o) && c.codeHash !in s.registered && Unused(c)
    ensures Inv(s.(store := s.store[c.codeHash := c], registered := s.registered + {c.codeHash}), o)
  {
    hide SoundCycle;
  }

  lemma SendKeeps(s: State, finding: Finding, o: Options)
    requires Inv(s, o)
    requires finding.codeHash in s.store && s.store[finding.codeHash].consumed
    requires forall i :: 0 <= i < |s.sent| ==> s.sent[i].codeHash != finding.codeHash
    ensures Inv(s.(sent := s.sent + [finding]), o)
  {
    hide Findings, DistinctResults;
    forall id | id in s.cycles ensures SoundCycle(s.cycles[id], s.sent + [finding], o) {
      assert SoundCycle(s.cycles[id], s.sent, o);
    }
  }

  /** What is newly found was never sent before. */
  lemma NewlyFound(s: State, codeHash: string, now: int, o: Options)
    requires Inv(s, o) && Active(s.store, codeHash, now)
    ensures forall i :: 0 <= i < |s.sent| ==> s.sent[i].codeHash != codeHash
  {
    hide SoundCycle, SoundStore;
  }

  lemma ExaminedKeeps(s: State, now: int, client: Client, o: Options, hash: string -> string)
    requires Inv(s, o)
    ensures Inv(s.(store := Examined(s.store, now, client, o, hash).0), o)
  {
    hide Examined;
    ExaminedIs(s.store, now, client, o, hash);
    var store := Examined(s.store, now, client, o, hash).0;
    assert SoundStore(s.(store := store), o);
    StoreKeeps(s, store, o);
  }

  lemma LookKeeps(s: State, id: nat, client: Client, o: Options, hash: string -> string)
    requires Inv(s, o) && id in s.cycles
    ensures Inv(Looked(s, id, client, o, hash), o)
  {
    hide Examined, Inv;
    var cycle := s.cycles[id];
    if cycle.awaiting.None? && client.isPlayer && |cycle.results| < o.maxMatchesPerCycle {
      var (store, finding) := Examined(s.store, cycle.now, client, o, hash);
      ExaminedKeeps(s, cycle.now, client, o, hash);
      ExaminedIs(s.store, cycle.now, client, o, hash);
      var t := s.(store := store);
      if finding.Some? {
        NewlyFound(s, finding.value.codeHash, cycle.now, o);
        SendKeeps(t, finding.value, o);
        AwaitingIsSound(s, id, finding.value, o);
        CycleKeeps(t.(sent := s.sent + [finding.value]), id, cycle.(awaiting := finding), o);
      } else {
        StillSound(s, id, o);
        CycleKeeps(t, id, cycle.(awaiting := None), o);
      }
    }
  }

  lemma StillSound(s: State, id: nat, o: Options)
    requires Inv(s, o) && id in s.cycles
    ensures SoundCycle(s.cycles[id], s.sent, o)
  {
  }

  lemma AwaitingIsSound(s: State, id: nat, finding: Finding, o: Options)
    requires Inv(s, o) && id in s.cycles && s.cycles[id].awaiting.None?
    requires |s.cycles[id].results| < o.maxMatchesPerCycle
    requires forall i :: 0 <= i < |s.sent| ==> s.sent[i].codeHash != finding.codeHash
    ensures SoundCycle(s.cycles[id].(awaiting := Some(finding)), s.sent + [finding], o)
  {
    StillSound(s, id, o);
    var before, after := Findings(s.cycles[id]), Findings(s.cycles[id].(awaiting := Some(finding)));
    assert after == s.cycles[id].results + [Result(finding, false)] && before == s.cycles[id].results;
    forall i | 0 <= i < |before| ensures before[i].finding.codeHash != finding.codeHash {
      assert before[i].finding in s.sent;
    }
    forall i | 0 <= i < |after| ensures after[i].finding in s.sent + [finding] {
      if i < |before| {
        assert before[i].finding in s.sent;
      }
    }
  }

  lemma AnswerKeeps(s: State, id: nat, answer: Answer, o: Options)
    requires Inv(s, o) && id in s.cycles
    ensures Inv(Answered(s, id, answer), o)
  {
    var cycle := s.cycles[id];
    if cycle.awaiting.Some? {
      hide Inv, SoundStore;
      var finding := cycle.awaiting.value;
      match answer {
        case Accepted =>
          DeliveredKeeps(s, finding.codeHash, o);
          ResultIsSound(s, id, true, o);
          CycleKeeps(s.(store := Delivered(s.store, finding.codeHash)), id,
                     Cycle(cycle.now, cycle.results + [Result(finding, true)], None), o);
        case NetworkError =>
          ResultIsSound(s, id, false, o);
          CycleKeeps(s, id, Cycle(cycle.now, cycle.results + [Result(finding, false)], None), o);
        case OtherError =>
          DroppedKeeps(s, id, o);
      }
    }
  }

  lemma DroppedKeeps(s: State, id: nat, o: Options)
    requires Inv(s, o)
    ensures Inv(s.(cycles := s.cycles - {id}), o)
  {
    hide SoundCycle;
  }

  lemma DeliveredKeeps(s: State, codeHash: string, o: Options)
    requires Inv(s, o)
    ensures Inv(s.(store := Delivered(s.store, codeHash)), o)
  {
    hide SoundCycle;
  }

  lemma ResultIsSound(s: State, id: nat, delivered: bool, o: Options)
    requires Inv(s, o) && id in s.cycles && s.cycles[id].awaiting.Some?
    ensures var c := s.cycles[id];
            SoundCycle(Cycle(c.now, c.results + [Result(c.awaiting.value, delivered)], None), s.sent, o)
  {
    StillSound(s, id, o);
    var c := s.cycles[id];
    var before := Findings(c);
    var after := Findings(Cycle(c.now, c.results + [Result(c.awaiting.value, delivered)], None));
    assert |after| == |before|;
    assert forall i :: 0 <= i < |after| ==> after[i].finding == before[i].finding;
  }

  lemma StepKeeps(s: State, e: Event, o: Options, hash: string -> string)
    requires Inv(s, o)
    ensures Inv(Step(s, e, o, hash), o)
  {
    match e {
      case Register(c) =>
        if c.codeHash !in s.registered && Unused(c) {
          RegisterKeeps(s, c, o);
        }
      case Begin(id, now) =>
        if id !in s.cycles {
          hide SoundCycle;
          assert SoundStore(s.(store := Pruned(s.store, now)), o);
          StoreKeeps(s, Pruned(s.store, now), o);
          NewCycleIsSound(now, s.sent, o);
          CycleKeeps(s.(store := Pruned(s.store, now)), id, Cycle(now, [], None), o);
        }
      case Look(id, client) =>
        if id in s.cycles {
          LookKeeps(s, id, client, o, hash);
        }
      case Notified(id, answer) =>
        if id in s.cycles {
          AnswerKeeps(s, id, answer, o);
        }
    }
  }

  lemma NewCycleIsSound(now: int, sent: seq<Finding>, o: Options)
    ensures SoundCycle(Cycle(now, [], None), sent, o)
  {
  }

  lemma {:induction false} RunKeeps(es: seq<Event>, o: Options, hash: string -> string)
    ensures Inv(Run(es, o, hash), o)
  {
    if es != [] {
      hide Inv, Step;
      RunKeeps(es[..|es| - 1], o, hash);
      StepKeeps(Run(es[..|es| - 1], o, hash), es[|es| - 1], o, hash);
    }
  }

  /** However the cycles overlap, a challenge triggers at most one webhook. */
  lemma {:induction false} NotifiedAtMostOnce(es: seq<Event>, o: Options, hash: string -> string, i: nat, j: nat)
    requires i < j < |Run(es, o, hash).sent|
    ensures var s := Run(es, o, hash);
            s.sent[i].codeHash in s.registered && s.sent[i].codeHash != s.sent[j].codeHash
  {
    hide Run, SoundStore, SoundCycle;
    RunKeeps(es, o, hash);
  }

  /** Attempts stop right past their limit, and only a consumed challenge is past it. */
  lemma {:induction false} AttemptsBounded(es: seq<Event>, o: Options, hash: string -> string, codeHash: string)
    requires codeHash in Run(es, o, hash).store
    ensures var c := Run(es, o, hash).store[codeHash];
            c.attempts <= o.maxAttempts + 1 && (c.attempts > o.maxAttempts ==> c.consumed)
  {
    hide Run, SentOnce, SoundCycle;
    RunKeeps(es, o, hash);
  }

  /** A cycle returns at most its permitted number of results, for distinct challenges, each sent out. */
  lemma {:induction false} ResultsBounded(es: seq<Event>, o: Options, hash: string -> string, id: nat)
    requires id in Run(es, o, hash).cycles
    ensures var s := Run(es, o, hash);
            var results := s.cycles[id].results;
            && |results| <= o.maxMatchesPerCycle && DistinctResults(results)
            && (forall i :: 0 <= i < |results| ==> results[i].finding in s.sent)
  {
    hide Run, SoundStore, SentOnce;
    RunKeeps(es, o, hash);
    var s := Run(es, o, hash);
    var c := s.cycles[id];
    assert SoundCycle(c, s.sent, o);
    assert forall i :: 0 <= i < |c.results| ==> Findings(c)[i] == c.results[i];
  }

  predicate Sent(s: State, codeHash: string) { exists i :: 0 <= i < |s.sent| && s.sent[i].codeHash == codeHash }

  /** A stored challenge is marked verified exactly when it was sent out, and delivered only then. */
  predicate Marked(s: State) {
    forall h :: h in s.store ==>
      && (s.store[h].verifiedAt.Some? <==> Sent(s, h))
      && (s.store[h].delivered ==> Sent(s, h))
  }

  lemma SentMore(s: State, t: State, finding: Finding, codeHash: string)
    requires t.sent == s.sent + [finding]
    ensures Sent(t, codeHash) <==> Sent(s, codeHash) || finding.codeHash == codeHash
  {
    if Sent(s, codeHash) {
      var i :| 0 <= i < |s.sent| && s.sent[i].codeHash == codeHash;
      assert t.sent[i].codeHash == codeHash;
    }
    assert t.sent[|s.sent|] == finding;
  }

  lemma SameMarks(s: State, t: State)
    requires Marked(s) && t.sent == s.sent
    requires forall h :: h in t.store ==>
               h in s.store && t.store[h].verifiedAt == s.store[h].verifiedAt
               && (t.store[h].delivered ==> s.store[h].delivered || Sent(s, h))
    ensures Marked(t)
  {
    assert forall h :: Sent(t, h) <==> Sent(s, h);
  }

  lemma LookMarks(s: State, id: nat, client: Client, o: Options, hash: string -> string)
    requires Marked(s) && id in s.cycles
    ensures Marked(Looked(s, id, client, o, hash))
  {
    hide Examined, Sent;
    var t := Looked(s, id, client, o, hash);
    if t != s {
      var (store, finding) := Examined(s.store, s.cycles[id].now, client, o, hash);
      ExaminedIs(s.store, s.cycles[id].now, client, o, hash);
      if finding.Some? {
        forall h | h in t.store
          ensures (t.store[h].verifiedAt.Some? <==> Sent(t, h)) && (t.store[h].delivered ==> Sent(t, h))
        {
          SentMore(s, t, finding.value, h);
        }
      } else {
        SameMarks(s, t);
      }
    }
  }

  lemma AwaitedWasSent(s: State, id: nat, o: Options)
    requires Inv(s, o) && id in s.cycles && s.cycles[id].awaiting.Some?
    ensures Sent(s, s.cycles[id].awaiting.value.codeHash)
  {
    hide SoundStore, SentOnce;
    var c := s.cycles[id];
    assert SoundCycle(c, s.sent, o);
    assert Findings(c)[|c.results|].finding == c.awaiting.value;
  }

  lemma StepMarks(s: State, e: Event, o: Options, hash: string -> string)
    requires Inv(s, o) && Marked(s)
    ensures Marked(Step(s, e, o, hash))
  {
    hide Looked, Inv, Examined;
    match e {
      case Register(c) => RegisterMarks(s, c, o, hash);
      case Begin(id, now) => SameMarks(s, Step(s, e, o, hash));
      case Look(id, client) =>
        if id in s.cycles {
          LookMarks(s, id, client, o, hash);
        }
      case Notified(id, answer) =>
        if id in s.cycles && s.cycles[id].awaiting.Some? {
          AwaitedWasSent(s, id, o);
        }
        SameMarks(s, Step(s, e, o, hash));
    }
  }

  lemma RegisterMarks(s: State, c: Challenge, o: Options, hash: string -> string)
    requires Inv(s, o) && Marked(s)
    ensures Marked(Step(s, Register(c), o, hash))
  {
    hide SoundCycle, SoundStore;
    var t := Step(s, Register(c), o, hash);
    assert forall h :: Sent(t, h) <==> Sent(s, h);
  }

  /** The marks of a stored challenge tell the truth: verified if and only if a webhook was sent for it, and delivered
      only then. */
  lemma {:induction false} MarksAreTrue(es: seq<Event>, o: Options, hash: string -> string)
    ensures Marked(Run(es, o, hash))
  {
    if es != [] {
      hide Marked, Step, Inv;
      MarksAreTrue(es[..|es| - 1], o, hash);
      RunKeeps(es[..|es| - 1], o, hash);
      StepMarks(Run(es[..|es| - 1], o, hash), es[|es| - 1], o, hash);
    }
  }

  // ----- exactly what counts as an attempt, and what it does -----

  /** Some text of the client holds a code of an active challenge with this hash, and none of an active one before. */
  ghost predicate ShownFirst(store: Store, codes: seq<string>, now: int, hash: string -> string, h: string) {
    exists k :: 0 <= k < |codes| && hash(codes[k]) == h && Active(store, h, now)
                && forall j :: 0 <= j < k ==> !Active(store, hash(codes[j]), now)
  }

  /** A cycle that may still find something looks at a player who shows this challenge's code first. */
  ghost predicate Tried(s: State, e: Event, o: Options, hash: string -> string, h: string) {
    && e.Look? && e.id in s.cycles && e.client.isPlayer
    && s.cycles[e.id].awaiting.None? && |s.cycles[e.id].results| < o.maxMatchesPerCycle
    && ShownFirst(s.store, Candidates(e.client, o.fields), s.cycles[e.id].now, hash, h)
  }

  lemma {:induction false} ShownFirstIs(store: Store, codes: seq<string>, now: int, hash: string -> string)
    ensures var first := FirstActive(store, codes, now, hash);
            forall h :: ShownFirst(store, codes, now, hash, h) <==> first.Some? && hash(first.value) == h
    decreases |codes|
  {
    var first := FirstActive(store, codes, now, hash);
    if codes != [] {
      var rest := codes[1..];
      ShownFirstIs(store, rest, now, hash);
      forall h ensures ShownFirst(store, codes, now, hash, h) <==> first.Some? && hash(first.value) == h {
        if Active(store, hash(codes[0]), now) {
          if hash(codes[0]) == h {
            assert hash(codes[0]) == h && Active(store, h, now);
          }
        } else {
          LaterShown(store, codes, now, hash, h);
        }
      }
    }
  }

  lemma LaterShown(store: Store, codes: seq<string>, now: int, hash: string -> string, h: string)
    requires codes != [] && !Active(store, hash(codes[0]), now)
    ensures ShownFirst(store, codes, now, hash, h) <==> ShownFirst(store, codes[1..], now, hash, h)
  {
    var rest := codes[1..];
    if k :| 0 <= k < |codes| && hash(codes[k]) == h && Active(store, h, now)
            && forall j :: 0 <= j < k ==> !Active(store, hash(codes[j]), now) {
      assert hash(rest[k - 1]) == h;
      assert forall j :: 0 <= j < k - 1 ==> rest[j] == codes[j + 1];
    }
    if k :| 0 <= k < |rest| && hash(rest[k]) == h && Active(store, h, now)
            && forall j :: 0 <= j < k ==> !Active(store, hash(rest[j]), now) {
      assert hash(codes[k + 1]) == h;
      assert forall j :: 0 < j < k + 1 ==> codes[j] == rest[j - 1];
    }
  }

  /** Every look that tries a challenge adds one attempt to it and touches no other. Within the limit, and of a client
      with a unique identifier, it sends a finding; it consumes the challenge if it sends or is past the limit. */
  lemma {:induction false} AttemptOutcome(s: State, e: Event, o: Options, hash: string -> string, h: string)
    requires Tried(s, e, o, hash, h)
    ensures h in s.store
    ensures var t := Step(s, e, o, hash);
            var c := s.store[h];
            var allowed := c.attempts < o.maxAttempts;
            var sends := allowed && e.client.uniqueId != "";
            var now := s.cycles[e.id].now;
            && t.store == s.store[h := c.(attempts := c.attempts + 1, consumed := sends || !allowed,
                                          verifiedAt := if sends then Some(now) else c.verifiedAt)]
            && |t.sent| == |s.sent| + (if sends then 1 else 0) && s.sent <= t.sent
            && (sends ==> var f := t.sent[|s.sent|];
                  && f == Finding(h, c.wpUserId, now, f.code, e.client)
                  && hash(f.code) == h && f.code in Candidates(e.client, o.fields)
                  && t.cycles == s.cycles[e.id := s.cycles[e.id].(awaiting := Some(f))])
            && (!sends ==> t.cycles == s.cycles)
  {
    hide Candidates, FirstActive;
    ShownFirstIs(s.store, Candidates(e.client, o.fields), s.cycles[e.id].now, hash);
    if !(s.store[h].attempts < o.maxAttempts && e.client.uniqueId != "") {
      assert s.cycles[e.id := s.cycles[e.id].(awaiting := None)] == s.cycles;
    }
  }

  /** And a look that tries none changes nothing. */
  lemma NoAttempt(s: State, e: Event, o: Options, hash: string -> string)
    requires e.Look? && forall h :: !Tried(s, e, o, hash, h)
    ensures Step(s, e, o, hash) == s
  {
    hide Candidates, FirstActive;
    if e.id in s.cycles {
      var codes := Candidates(e.client, o.fields);
      ShownFirstIs(s.store, codes, s.cycles[e.id].now, hash);
      var first := FirstActive(s.store, codes, s.cycles[e.id].now, hash);
      if first.Some? {
        assert !Tried(s, e, o, hash, hash(first.value));
      }
      assert s.cycles[e.id].awaiting.None? ==> s.cycles[e.id := s.cycles[e.id].(awaiting := None)] == s.cycles;
    }
  }

  /** A cycle begins by forgetting exactly what has expired. */
  lemma BeginOutcome(s: State, id: nat, now: int, o: Options, hash: string -> string)
    requires id !in s.cycles
    ensures var t := Step(s, Begin(id, now), o, hash);
            && (forall h :: h in t.store <==> h in s.store && now <= s.store[h].expiresAt)
            && (forall h :: h in t.store ==> t.store[h] == s.store[h])
            && t == s.(store := t.store, cycles := s.cycles[id := Cycle(now, [], None)])
  {
  }

  /** A cycle under way is not begun again. */
  lemma BeginsOnce(s: State, id: nat, now: int, o: Options, hash: string -> string)
    requires id in s.cycles
    ensures Step(s, Begin(id, now), o, hash) == s
  {
  }

  /** An answer to the webhook a cycle awaits: it is a result of that cycle, delivered if it was accepted, which is
      marked on the challenge if that is still there; an unexpected error ends the cycle. */
  lemma AnswerOutcome(s: State, id: nat, answer: Answer, o: Options, hash: string -> string)
    requires id in s.cycles && s.cycles[id].awaiting.Some?
    ensures var t := Step(s, Notified(id, answer), o, hash);
            var f := s.cycles[id].awaiting.value;
            && t.sent == s.sent && t.registered == s.registered && t.store.Keys == s.store.Keys
            && (forall h :: h in s.store ==>
                  t.store[h] == s.store[h].(delivered := s.store[h].delivered || (answer.Accepted? && h == f.codeHash)))
            && (answer.OtherError? ==> t.cycles == s.cycles - {id})
            && (!answer.OtherError? ==>
                  t.cycles == s.cycles[id := Cycle(s.cycles[id].now,
                                                   s.cycles[id].results + [Result(f, answer.Accepted?)], None)])
  {
  }

  /** A challenge is registered as it comes, once for each hash. */
  lemma RegisterOutcome(s: State, c: Challenge, o: Options, hash: string -> string)
    requires Unused(c)
    ensures var t := Step(s, Register(c), o, hash);
            && t.registered == s.registered + {c.codeHash} && t.cycles == s.cycles && t.sent == s.sent
            && t.store == if c.codeHash in s.registered then s.store else s.store[c.codeHash := c]
  {
  }

  /** The text a client shows in a field. */
  predicate Shows(client: Client, field: TextField, text: string) {
    match field
    case Nickname => client.nickname == text
    case Description => client.description == Some(text)
    case AwayMessage => client.awayMessage == Some(text)
  }

  ghost predicate ShownIn(client: Client, field: TextField, code: string) {
    exists text :: Shows(client, field, text) && HasToken(text, code)
  }

  lemma TextShown(client: Client, field: TextField, code: string)
    ensures code in FindTokens(TextOf(client, field)) <==> ShownIn(client, field, code)
  {
    hide FindTokens;
    FoundIffMaximalRun(TextOf(client, field), code);
    if HasToken(TextOf(client, field), code) {
      assert !HasToken("", code);
      assert Shows(client, field, TextOf(client, field));
    }
  }

  /** The codes a client shows are the maximal runs of the right length in the texts of the permitted fields. */
  lemma {:induction false} CandidatesAreShown(client: Client, fields: seq<TextField>, code: string)
    ensures code in Candidates(client, fields) <==> exists i :: 0 <= i < |fields| && ShownIn(client, fields[i], code)
  {
    hide *;
    if fields == [] {
      NoCandidates(client);
    } else {
      var front, last := fields[..|fields| - 1], fields[|fields| - 1];
      CandidatesAreShown(client, front, code);
      TextShown(client, last, code);
      LastCandidates(client, fields, code);
      ShownInLast(client, fields, code);
    }
  }

  lemma NoCandidates(client: Client)
    ensures Candidates(client, []) == []
  {
  }

  lemma LastCandidates(client: Client, fields: seq<TextField>, code: string)
    requires fields != []
    ensures code in Candidates(client, fields) <==>
              || code in Candidates(client, fields[..|fields| - 1])
              || code in FindTokens(TextOf(client, fields[|fields| - 1]))
  {
    hide FindTokens, TextOf;
  }

  lemma ShownInLast(client: Client, fields: seq<TextField>, code: string)
    requires fields != []
    ensures var front := fields[..|fields| - 1];
            (exists i :: 0 <= i < |fields| && ShownIn(client, fields[i], code)) <==>
              || (exists i :: 0 <= i < |front| && ShownIn(client, front[i], code))
              || ShownIn(client, fields[|fields| - 1], code)
  {
    hide ShownIn;
    var front := fields[..|fields| - 1];
    if i :| 0 <= i < |front| && ShownIn(client, front[i], code) {
      assert ShownIn(client, fields[i], code);
    }
    if i :| 0 <= i < |fields| && ShownIn(client, fields[i], code) {
      assert i < |front| ==> front[i] == fields[i];
    }
  }

  /** And they are listed field by field. */
  lemma {:induction false} CandidatesInOrder(client: Client, a: seq<TextField>, b: seq<TextField>)
    ensures Candidates(client, a + b) == Candidates(client, a) + Candidates(client, b)
    ensures forall field :: Candidates(client, [field]) == FindTokens(TextOf(client, field))
  {
    hide TextOf, FindTokens;
    forall field ensures Candidates(client, [field]) == FindTokens(TextOf(client, field)) {
      assert [field][..0] == [];
    }
    if b == [] {
      assert a + b == a;
    } else {
      assert (a + b)[..|a + b| - 1] == a + b[..|b| - 1];
      CandidatesInOrder(client, a, b[..|b| - 1]);
    }
  }

  /** How often this challenge was tried. */
  ghost function Tries(es: seq<Event>, o: Options, hash: string -> string, h: string): nat {
    if es == [] then 0
    else
      var front, e := es[..|es| - 1], es[|es| - 1];
      Tries(front, o, hash, h) + (if Tried(Run(front, o, hash), e, o, hash, h) then 1 else 0)
  }

  /** A challenge's attempts are counted exactly, and it is consumed exactly when it was sent out or tried more often
      than permitted. */
  ghost predicate Counted(s: State, tries: nat, o: Options, h: string) {
    && (h !in s.registered ==> tries == 0)
    && (h in s.store ==>
          && s.store[h].attempts == tries
          && (s.store[h].consumed <==> Sent(s, h) || tries > o.maxAttempts))
  }

  lemma OthersCount(s: State, e: Event, o: Options, hash: string -> string, tries: nat, h: string)
    requires Inv(s, o) && Counted(s, tries, o, h) && !e.Look?
    ensures Counted(Step(s, e, o, hash), tries, o, h)
  {
    hide SoundCycle;
    assert Sent(Step(s, e, o, hash), h) <==> Sent(s, h);
  }

  lemma AttemptCounts(s: State, e: Event, o: Options, hash: string -> string, tries: nat, g: string, h: string)
    requires Inv(s, o) && Counted(s, tries, o, h) && Tried(s, e, o, hash, g)
    ensures Counted(Step(s, e, o, hash), if g == h then tries + 1 else tries, o, h)
  {
    hide SoundCycle, Step, Candidates;
    AttemptOutcome(s, e, o, hash, g);
    var t := Step(s, e, o, hash);
    TriedIsActive(s, e, o, hash, g);
    if |t.sent| > |s.sent| {
      var f := t.sent[|s.sent|];
      assert t.sent == s.sent + [f];
      SentMore(s, t, f, h);
    } else {
      assert t.sent == s.sent;
      SameSent(s, t, h);
    }
    assert t.registered == s.registered by { LookLeavesRegistered(s, e, o, hash); }
  }

  lemma SameSent(s: State, t: State, h: string)
    requires t.sent == s.sent
    ensures Sent(t, h) <==> Sent(s, h)
  {
  }

  lemma TriedIsActive(s: State, e: Event, o: Options, hash: string -> string, h: string)
    requires Tried(s, e, o, hash, h)
    ensures h in s.store && !s.store[h].consumed
  {
  }

  lemma LookLeavesRegistered(s: State, e: Event, o: Options, hash: string -> string)
    requires e.Look?
    ensures Step(s, e, o, hash).registered == s.registered
  {
    hide Examined;
  }

  lemma TriedOne(s: State, e: Event, o: Options, hash: string -> string, g: string, h: string)
    requires Tried(s, e, o, hash, g) && Tried(s, e, o, hash, h)
    ensures g == h
  {
    hide Candidates;
    ShownFirstIs(s.store, Candidates(e.client, o.fields), s.cycles[e.id].now, hash);
  }

  /** In every run, the attempts of a stored challenge are the times it was tried, and it is consumed exactly when it
      was sent out or tried more often than permitted. */
  lemma {:induction false} AttemptsAreCounted(es: seq<Event>, o: Options, hash: string -> string, h: string)
    ensures Counted(Run(es, o, hash), Tries(es, o, hash, h), o, h)
  {
    if es != [] {
      hide Inv, Step, Tried, Counted;
      var front, e := es[..|es| - 1], es[|es| - 1];
      var s := Run(front, o, hash);
      AttemptsAreCounted(front, o, hash, h);
      RunKeeps(front, o, hash);
      if !e.Look? {
        OthersCount(s, e, o, hash, Tries(front, o, hash, h), h);
        OnlyLooksTry(s, e, o, hash, h);
      } else if g :| Tried(s, e, o, hash, g) {
        AttemptCounts(s, e, o, hash, Tries(front, o, hash, h), g, h);
        if Tried(s, e, o, hash, h) {
          TriedOne(s, e, o, hash, g, h);
        }
      } else {
        NoAttempt(s, e, o, hash);
      }
    }
  }

  lemma OnlyLooksTry(s: State, e: Event, o: Options, hash: string -> string, h: string)
    requires !e.Look?
    ensures !Tried(s, e, o, hash, h)
  {
  }

  // ----- the worker -----

  method ExtractCandidates(client: Client, fields: seq<TextField>) returns (codes: seq<string>)
    ensures codes == Candidates(client, fields)
  {
    codes := [];
    for i := 0 to |fields|
      invariant codes == Candidates(client, fields[..i])
    {
      assert fields[..i + 1][..i] == fields[..i];
      var found: seq<string> := [];
      match fields[i] {
        case Nickname => found := FindCodes(client.nickname);
        case Description =>
          if client.description.Some? {
            found := FindCodes(client.description.value);
          }
        case AwayMessage =>
          if client.awayMessage.Some? {
            found := FindCodes(client.awayMessage.value);
          }
      }
      codes := codes + found;
    }
    assert fields[..|fields|] == fields;
  }

  /** One cycle's turn with one client, up to the webhook it may then await. */
  method Examine(store: ChallengeStore, now: int, client: Client, o: Options, hash: string -> string)
    returns (finding: Option<Finding>)
    modifies store
    ensures (store.challenges, finding) == Examined(old(store.challenges), now, client, o, hash)
  {
    hide Candidates;
    var codes := ExtractCandidates(client, o.fields);
    var challenge: Option<Challenge> := None;
    var i := 0;
    assert codes[0..] == codes;
    while i < |codes|
      invariant 0 <= i <= |codes|
      invariant FirstActive(store.challenges, codes, now, hash) == FirstActive(store.challenges, codes[i..], now, hash)
      invariant store.challenges == old(store.challenges)
    {
      challenge := store.FindActive(hash(codes[i]), now);
      if challenge.Some? {
        break;
      }
      assert codes[i..][1..] == codes[i + 1..];
      i := i + 1;
    }
    if i == |codes| {
      assert codes[i..] == [];
      return None;
    }
    var code := codes[i];
    var codeHash := hash(code);
    var attempts := challenge.value.attempts + 1;
    store.SetAttempts(codeHash, attempts);
    ghost var tried := challenge.value.(attempts := attempts);
    if attempts > o.maxAttempts {
      store.MarkConsumed(codeHash);
      assert store.challenges == old(store.challenges)[codeHash := tried.(consumed := true)];
      return None;
    }
    if client.uniqueId == "" {
      return None;
    }
    store.MarkConsumed(codeHash);
    store.SetVerifiedAt(codeHash, now);
    assert store.challenges == old(store.challenges)[codeHash := tried.(consumed := true, verifiedAt := Some(now))];
    return Some(Finding(codeHash, challenge.value.wpUserId, now, code, client));
  }
}
