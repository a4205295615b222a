/** The token bucket limiter, with times in milliseconds and tokens as real numbers. */
module RateLimit {
  datatype Bucket = Bucket(tokens: real, lastRefill: real)

  datatype Limits = Limits(capacity: real, refillPerSec: real) {
    predicate Valid() { capacity >= 0.0 && refillPerSec >= 0.0 }
  }

  datatype Call = Call(key: string, now: real)

  type Buckets = map<string, Bucket>

  // ----- one call -----

  function Min(a: real, b: real): real { if a <= b then a else b }

  function Max(a: real, b: real): real { if a >= b then a else b }

  /** What `ms` milliseconds add. */
  function Earned(ms: real, limits: Limits): real { (ms / 1000.0) * limits.refillPerSec }

  function Refilled(b: Bucket, now: real, limits: Limits): Bucket {
    Bucket(Min(limits.capacity, b.tokens + Earned(Max(0.0, now - b.lastRefill), limits)), now)
  }

  /** The bucket of a key as a call at `now` finds it. */
  function Found(buckets: Buckets, call: Call, limits: Limits): Bucket {
    Refilled(if call.key in buckets then buckets[call.key] else Bucket(limits.capacity, call.now), call.now, limits)
  }

  predicate Granted(buckets: Buckets, call: Call, limits: Limits) { Found(buckets, call, limits).tokens >= 1.0 }

  function Consumed(buckets: Buckets, call: Call, limits: Limits): Buckets {
    var b := Found(buckets, call, limits);
    buckets[call.key := if b.tokens >= 1.0 then b.(tokens := b.tokens - 1.0) else b]
  }

  // ----- runs -----

  datatype Ran = Ran(buckets: Buckets, answers: seq<bool>)

  function Run(calls: seq<Call>, limits: Limits): (r: Ran)
    ensures |r.answers| == |calls|
  {
    if calls == [] then Ran(map[], [])
    else
      var before := Run(calls[..|calls| - 1], limits);
      var call := calls[|calls| - 1];
      Ran(Consumed(before.buckets, call, limits), before.answers + [Granted(before.buckets, call, limits)])
  }

  lemma RunStep(front: seq<Call>, call: Call, limits: Limits)
    ensures var before := Run(front, limits);
            Run(front + [call], limits)
              == Ran(Consumed(before.buckets, call, limits), before.answers + [Granted(before.buckets, call, limits)])
  {
    hide Consumed, Granted;
    assert (front + [call])[..|front|] == front;
  }

  predicate InOrder(calls: seq<Call>) {
    forall i, j :: 0 <= i < j < |calls| ==> calls[i].now <= calls[j].now
  }

  /** Tokens are never owed and never exceed the capacity, whatever the clock does. */
  lemma {:induction false} TokensBounded(calls: seq<Call>, limits: Limits, key: string)
    requires limits.Valid()
    requires key in Run(calls, limits).buckets
    ensures 0.0 <= Run(calls, limits).buckets[key].tokens <= limits.capacity
  {
    if calls != [] {
      var front, call := calls[..|calls| - 1], calls[|calls| - 1];
      var before := Run(front, limits).buckets;
      if key in before {
        TokensBounded(front, limits, key);
        EarnedPositive(Max(0.0, call.now - before[key].lastRefill), limits);
      }
      EarnedPositive(0.0, limits);
    }
  }

  lemma EarnedPositive(ms: real, limits: Limits)
    requires limits.Valid() && ms >= 0.0
    ensures Earned(ms, limits) >= 0.0
  {
  }

  lemma EarnedAdds(a: real, b: real, limits: Limits)
    ensures Earned(a, limits) + Earned(b, limits) == Earned(a + b, limits)
  {
  }

  // ----- keys do not disturb each other -----

  function Only(calls: seq<Call>, key: string): (own: seq<Call>)
    ensures |own| <= |calls|
  {
    if calls == [] then []
    else
      var call := calls[|calls| - 1];
      Only(calls[..|calls| - 1], key) + (if call.key == key then [call] else [])
  }

  /** The answers given to the calls of one key. */
  function AnswersTo(calls: seq<Call>, answers: seq<bool>, key: string): seq<bool>
    requires |answers| == |calls|
  {
    if calls == [] then []
    else
      var n := |calls| - 1;
      AnswersTo(calls[..n], answers[..n], key) + (if calls[n].key == key then [answers[n]] else [])
  }

  function BucketOf(buckets: Buckets, key: string): seq<Bucket> {
    if key in buckets then [buckets[key]] else []
  }

  lemma AnswersStep(front: seq<Call>, call: Call, answers: seq<bool>, answer: bool, key: string)
    requires |answers| == |front|
    ensures AnswersTo(front + [call], answers + [answer], key)
              == AnswersTo(front, answers, key) + (if call.key == key then [answer] else [])
    ensures Only(front + [call], key) == Only(front, key) + (if call.key == key then [call] else [])
  {
    assert (front + [call])[..|front|] == front && (answers + [answer])[..|front|] == answers;
  }

  /** A key is answered, and left, as if it were alone. */
  lemma {:induction false} KeysAreIndependent(calls: seq<Call>, limits: Limits, key: string)
    ensures var all := Run(calls, limits);
            var alone := Run(Only(calls, key), limits);
            && AnswersTo(calls, all.answers, key) == alone.answers
            && BucketOf(all.buckets, key) == BucketOf(alone.buckets, key)
  {
    if calls != [] {
      hide Found, Run, AnswersTo, Only;
      var front, call := calls[..|calls| - 1], calls[|calls| - 1];
      assert calls == front + [call];
      KeysAreIndependent(front, limits, key);
      var all, alone := Run(front, limits), Run(Only(front, key), limits);
      RunStep(front, call, limits);
      AnswersStep(front, call, all.answers, Granted(all.buckets, call, limits), key);
      if call.key == key {
        RunStep(Only(front, key), call, limits);
        SameBucketSameAnswer(all.buckets, alone.buckets, call, limits);
      } else {
        assert Only(front, key) + [] == Only(front, key) && alone.answers + [] == alone.answers;
      }
    }
  }

  lemma SameBucketSameAnswer(a: Buckets, b: Buckets, call: Call, limits: Limits)
    requires BucketOf(a, call.key) == BucketOf(b, call.key)
    ensures Found(a, call, limits) == Found(b, call, limits)
  {
    assert call.key in a <==> |BucketOf(a, call.key)| == 1;
    assert call.key in b <==> |BucketOf(b, call.key)| == 1;
    if call.key in a {
      assert BucketOf(a, call.key)[0] == BucketOf(b, call.key)[0];
    }
  }

  // ----- the rate is bounded over any stretch -----

  /** The calls of `key` granted among the calls from `i` on. */
  function Grants(calls: seq<Call>, answers: seq<bool>, key: string, i: nat): nat
    requires |answers| == |calls|
  {
    if |calls| <= i then 0
    else
      var n := |calls| - 1;
      Grants(calls[..n], answers[..n], key, i) + (if calls[n].key == key && answers[n] then 1 else 0)
  }

  lemma GrantsStep(front: seq<Call>, call: Call, answers: seq<bool>, answer: bool, key: string, i: nat)
    requires |answers| == |front| && i <= |front|
    ensures Grants(front + [call], answers + [answer], key, i)
              == Grants(front, answers, key, i) + (if call.key == key && answer then 1 else 0)
  {
    assert (front + [call])[..|front|] == front && (answers + [answer])[..|front|] == answers;
  }

  /** The key's own calls from call `i` on. */
  function Own(calls: seq<Call>, key: string, i: nat): seq<Call>
    requires i <= |calls|
  {
    Only(calls[i..], key)
  }

  /** The time that passes forwards from each of these calls to the next. */
  function Advance(own: seq<Call>): (ms: real)
    ensures ms >= 0.0
  {
    if |own| <= 1 then 0.0
    else Advance(own[..|own| - 1]) + Max(0.0, own[|own| - 1].now - own[|own| - 2].now)
  }

  lemma AdvanceStep(own: seq<Call>, call: Call)
    ensures Advance(own + [call]) ==
              Advance(own) + (if own == [] then 0.0 else Max(0.0, call.now - own[|own| - 1].now))
  {
    assert (own + [call])[..|own|] == own;
  }

  /** `g` grants among these own calls, and the tokens left after them, fit in the capacity and what was earned. */
  predicate Fits(g: nat, buckets: Buckets, key: string, own: seq<Call>, limits: Limits) {
    && (own != [] ==> key in buckets && buckets[key].lastRefill == own[|own| - 1].now)
    && (g > 0 ==> own != [] && g as real + buckets[key].tokens <= limits.capacity + Earned(Advance(own), limits))
  }

  lemma FitsStep(g: nat, buckets: Buckets, call: Call, own: seq<Call>, limits: Limits)
    requires limits.Valid() && Fits(g, buckets, call.key, own, limits)
    ensures Fits(g + (if Granted(buckets, call, limits) then 1 else 0), Consumed(buckets, call, limits), call.key,
                 own + [call], limits)
  {
    hide Earned, Advance;
    AdvanceStep(own, call);
    EarnedPositive(Advance(own + [call]), limits);
    if own != [] {
      EarnedAdds(Advance(own), Max(0.0, call.now - own[|own| - 1].now), limits);
    }
  }

  lemma OwnStep(front: seq<Call>, call: Call, key: string, i: nat)
    requires i <= |front|
    ensures Own(front + [call], key, i) == Own(front, key, i) + (if call.key == key then [call] else [])
  {
    assert (front + [call])[i..] == front[i..] + [call];
    assert (front[i..] + [call])[..|front[i..]|] == front[i..];
  }

  /** Grants so far and tokens left never exceed the capacity and what the key's own calls earned. */
  lemma {:induction false} Potential(calls: seq<Call>, limits: Limits, key: string, i: nat)
    requires limits.Valid() && i <= |calls|
    ensures var r := Run(calls, limits);
            Fits(Grants(calls, r.answers, key, i), r.buckets, key, Own(calls, key, i), limits)
  {
    hide Run, Grants, Granted, Found, Earned, Fits, Own;
    var r := Run(calls, limits);
    if i == |calls| {
      NoGrantsYet(calls, r.answers, key, i);
      NothingFits(calls, r.buckets, key, limits);
    } else {
      var front, call := calls[..|calls| - 1], calls[|calls| - 1];
      assert calls == front + [call];
      var before := Run(front, limits);
      var g := Grants(front, before.answers, key, i);
      Potential(front, limits, key, i);
      RunStep(front, call, limits);
      GrantsStep(front, call, before.answers, Granted(before.buckets, call, limits), key, i);
      OwnStep(front, call, key, i);
      if call.key == key {
        FitsStep(g, before.buckets, call, Own(front, key, i), limits);
      } else {
        assert Own(front, key, i) + [] == Own(front, key, i);
        OthersFit(g, before.buckets, key, Own(front, key, i), call, limits);
      }
    }
  }

  lemma NoGrantsYet(calls: seq<Call>, answers: seq<bool>, key: string, i: nat)
    requires |calls| <= i && |answers| == |calls|
    ensures Grants(calls, answers, key, i) == 0
  {
  }

  lemma NothingFits(calls: seq<Call>, buckets: Buckets, key: string, limits: Limits)
    ensures Fits(0, buckets, key, Own(calls, key, |calls|), limits)
  {
  }

  lemma OthersFit(g: nat, buckets: Buckets, key: string, own: seq<Call>, call: Call, limits: Limits)
    requires Fits(g, buckets, key, own, limits) && call.key != key
    ensures Fits(g, Consumed(buckets, call, limits), key, own, limits)
  {
  }

  /** Whatever the clock does, a key is granted in any stretch of a run at most the capacity and what the time that
      passed forwards between its own calls earns. */
  lemma {:induction false} GrantsBoundedForAnyClock(calls: seq<Call>, limits: Limits, key: string, i: nat)
    requires limits.Valid() && i <= |calls|
    ensures Grants(calls, Run(calls, limits).answers, key, i) as real
              <= limits.capacity + Earned(Advance(Own(calls, key, i)), limits)
  {
    hide Run, Grants, Earned, Own;
    var r := Run(calls, limits);
    Potential(calls, limits, key, i);
    EarnedPositive(Advance(Own(calls, key, i)), limits);
    if key in r.buckets {
      TokensBounded(calls, limits, key);
    }
  }

  // ----- and nothing is refused without need -----

  /** What the bound leaves to `call` in the stretch of these calls of its key from the one numbered `i` on. */
  function Room(own: seq<Call>, answers: seq<bool>, i: nat, call: Call, limits: Limits): real
    requires i <= |own| == |answers|
  {
    limits.capacity + Earned(Advance(own[i..] + [call]), limits) - Grants(own, answers, call.key, i) as real
  }

  lemma RoomStep(front: seq<Call>, c: Call, answers: seq<bool>, answer: bool, i: nat, call: Call, limits: Limits)
    requires i <= |front| == |answers| && c.key == call.key
    ensures Room(front + [c], answers + [answer], i, call, limits)
              == Room(front, answers, i, c, limits) + Earned(Max(0.0, call.now - c.now), limits)
                 - (if answer then 1.0 else 0.0)
  {
    hide Earned, Max, Grants, Advance;
    var own := front + [c];
    assert own[i..] == front[i..] + [c];
    AdvanceStep(own[i..], call);
    GrantsStep(front, c, answers, answer, call.key, i);
    EarnedAdds(Advance(own[i..]), Max(0.0, call.now - c.now), limits);
  }

  lemma RoomOfNone(own: seq<Call>, answers: seq<bool>, call: Call, limits: Limits)
    requires |answers| == |own|
    ensures Room(own, answers, |own|, call, limits) == limits.capacity
  {
    assert own[|own|..] + [call] == [call];
    assert Earned(0.0, limits) == 0.0;
  }

  /** The tokens that a call finds are the least that any stretch leaves. */
  lemma {:induction false} TokensAreLeastRoom(own: seq<Call>, limits: Limits, call: Call) returns (least: nat)
    requires limits.Valid() && forall i :: 0 <= i < |own| ==> own[i].key == call.key
    ensures least <= |own|
    ensures var r := Run(own, limits);
            && Found(r.buckets, call, limits).tokens == Room(own, r.answers, least, call, limits)
            && forall i :: 0 <= i <= |own| ==>
                 Found(r.buckets, call, limits).tokens <= Room(own, r.answers, i, call, limits)
  {
    hide Run, Found, Room, Earned;
    var r := Run(own, limits);
    RoomOfNone(own, r.answers, call, limits);
    if own == [] {
      FirstFound(call, limits);
      least := 0;
    } else {
      var front, c := own[..|own| - 1], own[|own| - 1];
      assert own == front + [c];
      var before := Run(front, limits);
      least := TokensAreLeastRoom(front, limits, c);
      RunStep(front, c, limits);
      NextFound(before.buckets, c, call, limits);
      var answer := Granted(before.buckets, c, limits);
      forall i | 0 <= i <= |front|
        ensures Room(own, r.answers, i, call, limits)
                  == Room(front, before.answers, i, c, limits) + Earned(Max(0.0, call.now - c.now), limits)
                     - (if answer then 1.0 else 0.0)
      {
        RoomStep(front, c, before.answers, answer, i, call, limits);
      }
      if Found(r.buckets, call, limits).tokens == limits.capacity {
        least := |own|;
      }
    }
  }

  lemma FirstFound(call: Call, limits: Limits)
    ensures Found(Run([], limits).buckets, call, limits).tokens == limits.capacity
  {
    assert Earned(0.0, limits) == 0.0;
  }

  lemma NextFound(buckets: Buckets, c: Call, call: Call, limits: Limits)
    requires c.key == call.key
    ensures var left := Found(buckets, c, limits).tokens - (if Granted(buckets, c, limits) then 1.0 else 0.0);
            Found(Consumed(buckets, c, limits), call, limits).tokens
              == Min(limits.capacity, left + Earned(Max(0.0, call.now - c.now), limits))
  {
    hide Earned;
    assert Found(buckets, c, limits).lastRefill == c.now;
  }

  /** A call is granted exactly when that breaks the bound in no stretch of its key's calls. */
  lemma {:induction false} GrantedIff(calls: seq<Call>, limits: Limits, call: Call)
    requires limits.Valid()
    ensures var own := Only(calls, call.key);
            var answers := Run(own, limits).answers;
            Granted(Run(calls, limits).buckets, call, limits) <==>
              forall i :: 0 <= i <= |own| ==>
                Grants(own, answers, call.key, i) as real + 1.0
                  <= limits.capacity + Earned(Advance(own[i..] + [call]), limits)
  {
    hide Run, Earned, Found, Grants, Advance;
    var own := Only(calls, call.key);
    var r := Run(own, limits);
    OnlyOfKey(calls, call.key);
    KeysAreIndependent(calls, limits, call.key);
    SameBucketSameAnswer(Run(calls, limits).buckets, r.buckets, call, limits);
    var least := TokensAreLeastRoom(own, limits, call);
    forall i | 0 <= i <= |own|
      ensures Room(own, r.answers, i, call, limits)
                == limits.capacity + Earned(Advance(own[i..] + [call]), limits)
                   - Grants(own, r.answers, call.key, i) as real
    {
    }
  }

  lemma {:induction false} OnlyOfKey(calls: seq<Call>, key: string)
    ensures forall i :: 0 <= i < |Only(calls, key)| ==> Only(calls, key)[i].key == key
  {
    if calls != [] {
      OnlyOfKey(calls[..|calls| - 1], key);
    }
  }

  // ----- when that is the time elapsed -----

  function Elapsed(own: seq<Call>): real
    requires own != []
  {
    own[|own| - 1].now - own[0].now
  }

  /** At least the time elapsed passes forwards, and no more exactly when the clock never goes back. */
  lemma {:induction false} AdvanceIsElapsed(own: seq<Call>)
    requires own != []
    ensures Advance(own) >= Elapsed(own)
    ensures Advance(own) == Elapsed(own) <==> InOrder(own)
  {
    if |own| > 1 {
      var n := |own| - 1;
      AdvanceIsElapsed(own[..n]);
      if InOrder(own[..n]) && own[n - 1].now <= own[n].now {
        forall i, j | 0 <= i < j < |own| ensures own[i].now <= own[j].now {
          if j == n {
            assert own[..n][i].now <= own[..n][n - 1].now;
          } else {
            assert own[..n][i].now <= own[..n][j].now;
          }
        }
      }
      if InOrder(own) {
        assert forall i, j :: 0 <= i < j < n ==> own[..n][i].now <= own[..n][j].now;
      }
    }
  }

  lemma {:induction false} OnlyWithin(calls: seq<Call>, key: string)
    requires InOrder(calls)
    ensures InOrder(Only(calls, key))
    ensures forall k :: 0 <= k < |Only(calls, key)| ==>
              calls[0].now <= Only(calls, key)[k].now <= calls[|calls| - 1].now
  {
    if calls != [] {
      OnlyWithin(calls[..|calls| - 1], key);
    }
  }

  /** Over any stretch of a run whose clock does not go back, a key is granted at most the capacity and what the
      stretch earns. */
  lemma {:induction false} GrantsBounded(calls: seq<Call>, limits: Limits, key: string, i: nat)
    requires limits.Valid() && InOrder(calls) && i < |calls|
    ensures Grants(calls, Run(calls, limits).answers, key, i) as real
              <= limits.capacity + Earned(calls[|calls| - 1].now - calls[i].now, limits)
  {
    hide Run, Grants, Earned, Only, Advance;
    var own := Own(calls, key, i);
    var ms := calls[|calls| - 1].now - calls[i].now;
    GrantsBoundedForAnyClock(calls, limits, key, i);
    assert InOrder(calls[i..]) && calls[i..][|calls[i..]| - 1] == calls[|calls| - 1];
    OnlyWithin(calls[i..], key);
    if own != [] {
      AdvanceIsElapsed(own);
    } else {
      assert Advance(own) == 0.0 by { NothingAdvances(); }
    }
    EarnedPositive(ms - Advance(own), limits);
    EarnedAdds(Advance(own), ms - Advance(own), limits);
  }

  lemma NothingAdvances()
    ensures Advance([]) == 0.0
  {
  }

  /** The bound by the time elapsed, for the calls of one key. */
  ghost predicate ElapsedBound(own: seq<Call>, key: string, limits: Limits)
    requires own != []
  {
    Grants(own, Run(own, limits).answers, key, 0) as real <= limits.capacity + Earned(Elapsed(own), limits)
  }

  /** A bucket of one token, refilled so slowly that these calls earn at most one more, grants that one. */
  lemma {:induction false} OneThenAnother(own: seq<Call>, key: string, limits: Limits)
    requires own != [] && forall k :: 0 <= k < |own| ==> own[k].key == key
    requires limits.capacity == 1.0 && limits.refillPerSec >= 0.0 && Earned(Advance(own), limits) <= 1.0
    ensures var r := Run(own, limits);
            && key in r.buckets && r.buckets[key].lastRefill == own[|own| - 1].now
            && Grants(own, r.answers, key, 0) >= (if Earned(Advance(own), limits) < 1.0 then 1 else 2)
            && (Earned(Advance(own), limits) < 1.0 ==> r.buckets[key].tokens == Earned(Advance(own), limits))
  {
    hide Run, Grants, Earned, Advance;
    var front, call := own[..|own| - 1], own[|own| - 1];
    assert own == front + [call];
    var before := Run(front, limits);
    RunStep(front, call, limits);
    GrantsStep(front, call, before.answers, Granted(before.buckets, call, limits), key, 0);
    AdvanceStep(front, call);
    if front == [] {
      NothingRan(limits);
      NothingAdvances();
      NoGrantsYet(front, before.answers, key, 0);
      EarnedNothing(limits);
    } else {
      var step := Max(0.0, call.now - front[|front| - 1].now);
      EarnedAdds(Advance(front), step, limits);
      EarnedPositive(step, limits);
      OneThenAnother(front, key, limits);
    }
  }

  lemma EarnedNothing(limits: Limits)
    ensures Earned(0.0, limits) == 0.0
  {
  }

  lemma EarnsOne(ms: real, limits: Limits)
    requires ms > 0.0 && limits.refillPerSec == 1000.0 / ms
    ensures Earned(ms, limits) == 1.0 && limits.refillPerSec > 0.0
  {
    assert ms * limits.refillPerSec == 1000.0;
    assert (ms / 1000.0) * limits.refillPerSec == (ms * limits.refillPerSec) / 1000.0;
  }

  lemma EarnsSome(ms: real, limits: Limits)
    requires ms > 0.0 && limits.refillPerSec > 0.0
    ensures Earned(ms, limits) > 0.0
  {
    assert ms / 1000.0 > 0.0;
  }

  /** If the clock goes back between a key's calls, some limits grant more than the time elapsed allows: the time it
      passes again is credited again. */
  lemma ClockGoingBackBreaksTheBound(own: seq<Call>, key: string) returns (limits: Limits)
    requires own != [] && forall k :: 0 <= k < |own| ==> own[k].key == key
    requires !InOrder(own)
    ensures limits.Valid() && !ElapsedBound(own, key, limits)
  {
    hide Run, Grants, Earned, InOrder;
    AdvanceIsElapsed(own);
    var ahead := Advance(own);
    limits := Limits(1.0, if ahead > 0.0 then 1000.0 / ahead else 1.0);
    if ahead > 0.0 {
      EarnsOne(ahead, limits);
    } else {
      EarnedNothing(limits);
    }
    OneThenAnother(own, key, limits);
    EarnsSome(ahead - Elapsed(own), limits);
    EarnedAdds(Elapsed(own), ahead - Elapsed(own), limits);
  }

  /** For the calls of one key, the bound by the time elapsed holds whatever the limits exactly when the clock never
      goes back between them. */
  lemma ElapsedBoundIffInOrder(own: seq<Call>, key: string)
    requires own != [] && forall k :: 0 <= k < |own| ==> own[k].key == key
    ensures (forall limits: Limits :: limits.Valid() ==> ElapsedBound(own, key, limits)) <==> InOrder(own)
  {
    if InOrder(own) {
      forall limits: Limits | limits.Valid() ensures ElapsedBound(own, key, limits) {
        GrantsBounded(own, limits, key, 0);
      }
    } else {
      var limits := ClockGoingBackBreaksTheBound(own, key);
    }
  }

  /** A key calling no faster than the bucket refills is never refused. */
  lemma {:induction false} SteadyCallerServed(calls: seq<Call>, limits: Limits, key: string)
    requires limits.capacity >= 1.0 && limits.refillPerSec > 0.0
    requires forall j :: 0 <= j < |calls| ==> calls[j].key == key
    requires forall j :: 0 < j < |calls| ==> Earned(calls[j].now - calls[j - 1].now, limits) >= 1.0
    ensures forall j :: 0 <= j < |calls| ==> Run(calls, limits).answers[j]
    ensures calls != [] ==> key in Run(calls, limits).buckets
                            && Run(calls, limits).buckets[key].lastRefill == calls[|calls| - 1].now
  {
    if calls != [] {
      var front, call := calls[..|calls| - 1], calls[|calls| - 1];
      var before := Run(front, limits);
      SteadyCallerServed(front, limits, key);
      assert Granted(before.buckets, call, limits) by {
        if front != [] {
          var b := before.buckets[key];
          assert b.lastRefill == calls[|calls| - 2].now;
          assert Earned(call.now - b.lastRefill, limits) >= 1.0;
          PositiveWhenEarning(call.now - b.lastRefill, limits);
          TokensBounded(front, limits, key);
        } else {
          EarnedPositive(0.0, limits);
        }
      }
    }
  }

  lemma PositiveWhenEarning(ms: real, limits: Limits)
    requires limits.Valid() && Earned(ms, limits) >= 1.0
    ensures ms >= 0.0
  {
    if ms < 0.0 {
      NegativeEarnsNothing(ms, limits);
    }
  }

  lemma NegativeEarnsNothing(ms: real, limits: Limits)
    requires limits.Valid() && ms <= 0.0
    ensures Earned(ms, limits) <= 0.0
  {
    EarnedPositive(-ms, limits);
    EarnedAdds(ms, -ms, limits);
  }

  lemma NothingRan(limits: Limits)
    ensures Run([], limits) == Ran(map[], [])
  {
  }

  // ----- the object -----

  class TokenBucketLimiter {
    var buckets: Buckets
    const limits: Limits

    constructor (capacity: real, refillPerSec: real)
      ensures buckets == map[] && limits == Limits(capacity, refillPerSec)
    {
      buckets := map[];
      limits := Limits(capacity, refillPerSec);
    }

    method Consume(key: string, now: real) returns (granted: bool)
      modifies `buckets
      ensures granted <==> Granted(old(buckets), Call(key, now), limits)
      ensures buckets == Consumed(old(buckets), Call(key, now), limits)
    {
      if key !in buckets {
        buckets := buckets[key := Bucket(limits.capacity, now)];
      }
      var bucket := buckets[key];
      var elapsed := Max(0.0, now - bucket.lastRefill);
      var tokens := Min(limits.capacity, bucket.tokens + (elapsed / 1000.0) * limits.refillPerSec);
      buckets := buckets[key := Bucket(tokens, now)];
      if tokens >= 1.0 {
        buckets := buckets[key := Bucket(tokens - 1.0, now)];
        return true;
      }
      return false;
    }

    method Reset()
      modifies `buckets
      ensures buckets == Run([], limits).buckets
    {
      buckets := map[];
    }
  }
}
