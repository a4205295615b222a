/** The replay window: remembered nonces with their expiry, pruned and bounded, behind the timestamp check. */
module NonceStore {
  datatype Entry = Entry(nonce: string, expiry: int)

  /** A request's claimed time in seconds, its nonce, and the clock in milliseconds when it is checked. */
  datatype Attempt = Attempt(timestamp: int, nonce: string, now: int)

  // ----- one call -----

  function Unexpired(seen: seq<Entry>, now: int): (kept: seq<Entry>)
    ensures |kept| <= |seen|
  {
    if seen == [] then []
    else
      var e := seen[|seen| - 1];
      Unexpired(seen[..|seen| - 1], now) + (if e.expiry <= now then [] else [e])
  }

  predicate Has(seen: seq<Entry>, nonce: string) {
    exists i :: 0 <= i < |seen| && seen[i].nonce == nonce
  }

  function Evicted(seen: seq<Entry>, maxEntries: nat): seq<Entry> {
    if |seen| >= maxEntries && seen != [] then seen[1..] else seen
  }

  function Stored(seen: seq<Entry>, nonce: string, now: int, ttl: nat, maxEntries: nat): seq<Entry> {
    var kept := Unexpired(seen, now);
    if Has(kept, nonce) then kept else Evicted(kept, maxEntries) + [Entry(nonce, now + ttl)]
  }

  predicate Fresh(seen: seq<Entry>, nonce: string, now: int) { !Has(Unexpired(seen, now), nonce) }

  predicate Distinct(seen: seq<Entry>) {
    forall i, j :: 0 <= i < j < |seen| ==> seen[i].nonce != seen[j].nonce
  }

  lemma {:induction false} UnexpiredConcat(a: seq<Entry>, b: seq<Entry>, now: int)
    ensures Unexpired(a + b, now) == Unexpired(a, now) + Unexpired(b, now)
  {
    if b == [] {
      assert a + b == a;
    } else {
      assert (a + b)[..|a + b| - 1] == a + b[..|b| - 1];
      UnexpiredConcat(a, b[..|b| - 1], now);
    }
  }

  lemma UnexpiredNext(s: seq<Entry>, e: Entry, now: int)
    ensures Unexpired(s + [e], now) == if e.expiry <= now then Unexpired(s, now) else Unexpired(s, now) + [e]
  {
    assert (s + [e])[..|s|] == s;
  }

  /** The entry at `i`, and what stands before and after it. */
  lemma Around(done: seq<Entry>, s: seq<Entry>, i: nat)
    requires i < |s|
    ensures done + s[i..] == (done + [s[i]]) + s[i + 1..]
    ensures s[..i + 1] == s[..i] + [s[i]]
    ensures (s[..i] + s[i + 1..])[..i] == s[..i] && (s[..i] + s[i + 1..])[i..] == s[i + 1..]
  {
  }

  lemma NothingUnexpired(now: int)
    ensures Unexpired([], now) == []
  {
  }

  lemma {:induction false} UnexpiredLater(s: seq<Entry>, now: int, later: int)
    requires now <= later
    ensures Unexpired(Unexpired(s, now), later) == Unexpired(s, later)
  {
    if s != [] {
      var front, last := s[..|s| - 1], s[|s| - 1..];
      UnexpiredLater(front, now, later);
      UnexpiredConcat(Unexpired(front, now), if last[0].expiry <= now then [] else last, later);
    }
  }

  lemma {:induction false} UnexpiredIn(s: seq<Entry>, now: int, nonce: string)
    ensures Has(Unexpired(s, now), nonce) <==>
              exists i :: 0 <= i < |s| && s[i].nonce == nonce && s[i].expiry > now
  {
    if s != [] {
      var front, last := s[..|s| - 1], s[|s| - 1];
      UnexpiredIn(front, now, nonce);
      var f, u := Unexpired(front, now), Unexpired(s, now);
      if Has(f, nonce) {
        var i :| 0 <= i < |f| && f[i].nonce == nonce;
        assert u[i].nonce == nonce;
        var j :| 0 <= j < |front| && front[j].nonce == nonce && front[j].expiry > now;
        assert s[j].nonce == nonce && s[j].expiry > now;
      } else if last.expiry > now && last.nonce == nonce {
        assert u[|u| - 1] == last;
      } else {
        assert forall i :: 0 <= i < |u| ==> u[i].nonce != nonce by {
          assert forall i :: 0 <= i < |f| ==> u[i] == f[i];
        }
        assert forall i :: 0 <= i < |front| ==> front[i] == s[i];
      }
    }
  }

  /** The nonces remembered stay distinct. */
  lemma {:induction false} UnexpiredDistinct(s: seq<Entry>, now: int)
    requires Distinct(s)
    ensures Distinct(Unexpired(s, now))
  {
    if s != [] {
      var front, last := s[..|s| - 1], s[|s| - 1];
      UnexpiredDistinct(front, now);
      UnexpiredIn(front, now, last.nonce);
      assert !Has(Unexpired(front, now), last.nonce);
    }
  }

  // ----- runs -----

  /** What is remembered after some attempts, and the attempts accepted on the way. */
  datatype Ran = Ran(seen: seq<Entry>, log: seq<Attempt>)

  function Run(ttl: nat, maxEntries: nat, attempts: seq<Attempt>): Ran {
    if attempts == [] then Ran([], [])
    else
      var before := Run(ttl, maxEntries, attempts[..|attempts| - 1]);
      var a := attempts[|attempts| - 1];
      Ran(Stored(before.seen, a.nonce, a.now, ttl, maxEntries),
          before.log + (if Fresh(before.seen, a.nonce, a.now) then [a] else []))
  }

  predicate InOrder(attempts: seq<Attempt>) {
    forall i, j :: 0 <= i < j < |attempts| ==> attempts[i].now <= attempts[j].now
  }

  /** A store told to keep none still keeps the last one. */
  function Capacity(maxEntries: nat): nat { if maxEntries == 0 then 1 else maxEntries }

  function Newest(log: seq<Attempt>, n: nat): seq<Attempt> {
    if |log| <= n then log else log[|log| - n..]
  }

  function EntriesOf(log: seq<Attempt>, ttl: nat): (es: seq<Entry>)
    ensures |es| == |log| && forall i :: 0 <= i < |log| ==> es[i] == Entry(log[i].nonce, log[i].now + ttl)
  {
    seq(|log|, i requires 0 <= i < |log| => Entry(log[i].nonce, log[i].now + ttl))
  }

  /** The unexpired among the newest `Capacity` accepted attempts, in the order they were accepted. */
  function Window(log: seq<Attempt>, ttl: nat, maxEntries: nat, now: int): seq<Entry> {
    Unexpired(EntriesOf(Newest(log, Capacity(maxEntries)), ttl), now)
  }

  lemma {:induction false} AllUnexpired(s: seq<Entry>, now: int)
    requires forall i :: 0 <= i < |s| ==> s[i].expiry > now
    ensures Unexpired(s, now) == s
  {
    if s != [] {
      AllUnexpired(s[..|s| - 1], now);
      assert s == s[..|s| - 1] + [s[|s| - 1]];
    }
  }

  /** The oldest expire first: either nothing has expired, or the first has. */
  lemma OldestExpiresFirst(log: seq<Attempt>, ttl: nat, now: int)
    requires InOrder(log) && log != []
    ensures var es := EntriesOf(log, ttl);
            Unexpired(es, now) == if log[0].now + ttl > now then es else Unexpired(es[1..], now)
  {
    var es := EntriesOf(log, ttl);
    if log[0].now + ttl > now {
      AllUnexpired(es, now);
    } else {
      assert es == [es[0]] + es[1..];
      UnexpiredConcat([es[0]], es[1..], now);
      assert Unexpired([es[0]], now) == [];
    }
  }

  lemma {:induction false} LogInOrder(ttl: nat, maxEntries: nat, attempts: seq<Attempt>)
    requires InOrder(attempts)
    ensures InOrder(Run(ttl, maxEntries, attempts).log)
    ensures var log := Run(ttl, maxEntries, attempts).log;
            forall i :: 0 <= i < |log| ==> log[i].now <= attempts[|attempts| - 1].now
    ensures var log := Run(ttl, maxEntries, attempts).log;
            forall i :: 0 <= i < |log| ==> log[i] in attempts
    ensures attempts == [] ==> Run(ttl, maxEntries, attempts).log == []
  {
    hide Stored, Fresh;
    if attempts != [] {
      LogInOrder(ttl, maxEntries, attempts[..|attempts| - 1]);
    }
  }

  lemma NewestInOrder(log: seq<Attempt>, n: nat)
    requires InOrder(log)
    ensures InOrder(Newest(log, n))
  {
  }

  lemma UnexpiredTail(s: seq<Entry>, now: int)
    requires Unexpired(s, now) == s
    ensures s != [] ==> Unexpired(s[1..], now) == s[1..]
  {
    hide Unexpired;
    if s != [] {
      UnexpiredConcat(s[..1], s[1..], now);
      assert s == s[..1] + s[1..];
      var first, rest := Unexpired(s[..1], now), Unexpired(s[1..], now);
      assert |first| + |rest| == |s|;
      assert (first + rest)[1..] == rest;
    }
  }

  /** Evicting drops the oldest of a full window whether or not it has expired. */
  lemma EvictedIsTail(es: seq<Entry>, now: int, maxEntries: nat)
    requires |es| == Capacity(maxEntries)
    requires Unexpired(es, now) == es || Unexpired(es, now) == Unexpired(es[1..], now)
    ensures Evicted(Unexpired(es, now), maxEntries) == Unexpired(es[1..], now)
    ensures |Unexpired(es[1..], now)| < Capacity(maxEntries)
  {
    hide Unexpired;
    assert |Unexpired(es[1..], now)| <= |es[1..]|;
    if Unexpired(es, now) == es {
      UnexpiredTail(es, now);
    }
  }

  lemma PruneThenAppend(rest: seq<Entry>, e: Entry, now: int, later: int)
    requires now <= later
    ensures Unexpired(Unexpired(rest, now) + [e], later) == Unexpired(rest + [e], later)
  {
    hide Unexpired;
    UnexpiredConcat(Unexpired(rest, now), [e], later);
    UnexpiredConcat(rest, [e], later);
    UnexpiredLater(rest, now, later);
  }

  lemma FullWindowGrows(newest: seq<Attempt>, a: Attempt, ttl: nat, maxEntries: nat, later: int)
    requires InOrder(newest) && a.now <= later && |newest| == Capacity(maxEntries)
    ensures var kept := Unexpired(EntriesOf(newest, ttl), a.now);
            && Unexpired(Evicted(kept, maxEntries) + [Entry(a.nonce, a.now + ttl)], later)
                 == Unexpired(EntriesOf(newest[1..] + [a], ttl), later)
            && |Evicted(kept, maxEntries)| < Capacity(maxEntries)
  {
    hide Unexpired, InOrder, Evicted;
    var es := EntriesOf(newest, ttl);
    var e := Entry(a.nonce, a.now + ttl);
    OldestExpiresFirst(newest, ttl, a.now);
    EvictedIsTail(es, a.now, maxEntries);
    assert EntriesOf(newest[1..] + [a], ttl) == es[1..] + [e];
    PruneThenAppend(es[1..], e, a.now, later);
  }

  lemma OpenWindowGrows(newest: seq<Attempt>, a: Attempt, ttl: nat, maxEntries: nat, later: int)
    requires a.now <= later && |newest| < Capacity(maxEntries)
    ensures var kept := Unexpired(EntriesOf(newest, ttl), a.now);
            && Unexpired(Evicted(kept, maxEntries) + [Entry(a.nonce, a.now + ttl)], later)
                 == Unexpired(EntriesOf(newest + [a], ttl), later)
            && |Evicted(kept, maxEntries)| < Capacity(maxEntries)
  {
    hide Unexpired, InOrder, Evicted;
    var es := EntriesOf(newest, ttl);
    var e := Entry(a.nonce, a.now + ttl);
    RoomLeft(Unexpired(es, a.now), maxEntries);
    assert EntriesOf(newest + [a], ttl) == es + [e];
    PruneThenAppend(es, e, a.now, later);
  }

  /** Accepting one more attempt turns the window over the log into the window over the longer log. */
  lemma WindowGrows(log: seq<Attempt>, a: Attempt, ttl: nat, maxEntries: nat, later: int)
    requires InOrder(log) && a.now <= later
    ensures var kept := Window(log, ttl, maxEntries, a.now);
            Unexpired(Evicted(kept, maxEntries) + [Entry(a.nonce, a.now + ttl)], later)
              == Window(log + [a], ttl, maxEntries, later)
    ensures |Evicted(Window(log, ttl, maxEntries, a.now), maxEntries)| < Capacity(maxEntries)
  {
    hide Unexpired, InOrder, Evicted, EntriesOf;
    var cap := Capacity(maxEntries);
    var newest := Newest(log, cap);
    if |newest| == cap {
      NewestInOrder(log, cap);
      FullWindowGrows(newest, a, ttl, maxEntries, later);
      assert Newest(log + [a], cap) == newest[1..] + [a];
    } else {
      OpenWindowGrows(newest, a, ttl, maxEntries, later);
      assert Newest(log + [a], cap) == newest + [a];
    }
  }

  lemma RoomLeft(kept: seq<Entry>, maxEntries: nat)
    requires |kept| < Capacity(maxEntries)
    ensures Evicted(kept, maxEntries) == kept
  {
  }

  lemma RunStep(ttl: nat, maxEntries: nat, front: seq<Attempt>, a: Attempt)
    ensures var before := Run(ttl, maxEntries, front);
            Run(ttl, maxEntries, front + [a])
              == Ran(Stored(before.seen, a.nonce, a.now, ttl, maxEntries),
                     if Fresh(before.seen, a.nonce, a.now) then before.log + [a] else before.log)
  {
    hide Stored, Fresh;
    assert (front + [a])[..|front|] == front;
  }

  /** At any moment from the last attempt on, what the store still holds unexpired is exactly the unexpired part of the
      newest accepted attempts, in order; and it never holds more than its capacity. */
  lemma {:induction false} StoreIsWindow(ttl: nat, maxEntries: nat, attempts: seq<Attempt>, later: int)
    requires InOrder(attempts) && (attempts != [] ==> attempts[|attempts| - 1].now <= later)
    ensures var r := Run(ttl, maxEntries, attempts);
            && Unexpired(r.seen, later) == Window(r.log, ttl, maxEntries, later)
            && |r.seen| <= Capacity(maxEntries)
  {
    hide *;
    if attempts == [] {
      EmptyIsWindow(ttl, maxEntries, later);
    } else {
      var front, a := attempts[..|attempts| - 1], attempts[|attempts| - 1];
      assert attempts == front + [a];
      FrontInOrder(attempts);
      StoreIsWindow(ttl, maxEntries, front, a.now);
      StoreIsWindow(ttl, maxEntries, front, later);
      LogInOrder(ttl, maxEntries, front);
      RunStep(ttl, maxEntries, front, a);
      StoredIsWindow(Run(ttl, maxEntries, front), a, ttl, maxEntries, later);
    }
  }

  lemma EmptyIsWindow(ttl: nat, maxEntries: nat, later: int)
    ensures var r := Run(ttl, maxEntries, []);
            Unexpired(r.seen, later) == Window(r.log, ttl, maxEntries, later) && |r.seen| <= Capacity(maxEntries)
  {
  }

  lemma StoredIsWindow(before: Ran, a: Attempt, ttl: nat, maxEntries: nat, later: int)
    requires InOrder(before.log) && a.now <= later && |before.seen| <= Capacity(maxEntries)
    requires Unexpired(before.seen, a.now) == Window(before.log, ttl, maxEntries, a.now)
    requires Unexpired(before.seen, later) == Window(before.log, ttl, maxEntries, later)
    ensures var seen := Stored(before.seen, a.nonce, a.now, ttl, maxEntries);
            var log := if Fresh(before.seen, a.nonce, a.now) then before.log + [a] else before.log;
            Unexpired(seen, later) == Window(log, ttl, maxEntries, later) && |seen| <= Capacity(maxEntries)
  {
    hide Unexpired, Window, Has, Evicted, Capacity;
    UnexpiredLater(before.seen, a.now, later);
    if Fresh(before.seen, a.nonce, a.now) {
      WindowGrows(before.log, a, ttl, maxEntries, later);
    }
  }

  lemma FrontInOrder(attempts: seq<Attempt>)
    requires InOrder(attempts) && attempts != []
    ensures var front := attempts[..|attempts| - 1];
            InOrder(front) && (front != [] ==> front[|front| - 1].now <= attempts[|attempts| - 1].now)
  {
  }

  /** With a lifetime, what the store holds after an attempt is that window and nothing else. */
  lemma {:induction false} StoreIsExactlyWindow(ttl: nat, maxEntries: nat, attempts: seq<Attempt>)
    requires InOrder(attempts) && attempts != [] && ttl > 0
    ensures var r := Run(ttl, maxEntries, attempts);
            r.seen == Window(r.log, ttl, maxEntries, attempts[|attempts| - 1].now)
  {
    hide Unexpired, Window, Has;
    var front, a := attempts[..|attempts| - 1], attempts[|attempts| - 1];
    StoreIsWindow(ttl, maxEntries, attempts, a.now);
    var before := Run(ttl, maxEntries, front);
    var kept := Unexpired(before.seen, a.now);
    UnexpiredLater(before.seen, a.now, a.now);
    UnexpiredTail(kept, a.now);
    UnexpiredConcat(Evicted(kept, maxEntries), [Entry(a.nonce, a.now + ttl)], a.now);
    AllUnexpired([Entry(a.nonce, a.now + ttl)], a.now);
  }

  /** One of the newest accepted attempts, still alive, has the nonce of `a`. */
  predicate Repeats(log: seq<Attempt>, ttl: nat, maxEntries: nat, a: Attempt) {
    exists i :: 0 <= i < |log| && |log| - Capacity(maxEntries) <= i && log[i].nonce == a.nonce
                && a.now < log[i].now + ttl
  }

  lemma RepeatsIsInWindow(log: seq<Attempt>, ttl: nat, maxEntries: nat, a: Attempt)
    ensures Repeats(log, ttl, maxEntries, a) <==> Has(Window(log, ttl, maxEntries, a.now), a.nonce)
  {
    hide Unexpired, Has;
    var newest := Newest(log, Capacity(maxEntries));
    var es := EntriesOf(newest, ttl);
    UnexpiredIn(es, a.now, a.nonce);
    var shift := |log| - |newest|;
    if Repeats(log, ttl, maxEntries, a) {
      var i :| 0 <= i < |log| && |log| - Capacity(maxEntries) <= i && log[i].nonce == a.nonce
               && a.now < log[i].now + ttl;
      assert es[i - shift].nonce == a.nonce && es[i - shift].expiry > a.now;
    }
    if Has(Unexpired(es, a.now), a.nonce) {
      var j :| 0 <= j < |es| && es[j].nonce == a.nonce && es[j].expiry > a.now;
      assert log[j + shift] == newest[j];
    }
  }

  /** A further attempt is accepted exactly when none of the newest accepted ones still alive has its nonce. */
  lemma AcceptedIff(ttl: nat, maxEntries: nat, attempts: seq<Attempt>, a: Attempt)
    requires InOrder(attempts + [a])
    ensures var log := Run(ttl, maxEntries, attempts).log;
            Run(ttl, maxEntries, attempts + [a]).log == if Repeats(log, ttl, maxEntries, a) then log else log + [a]
  {
    hide Unexpired, Has, Stored, Run, InOrder, Repeats;
    var before := Run(ttl, maxEntries, attempts);
    FrontInOrder(attempts + [a]);
    assert (attempts + [a])[..|attempts|] == attempts;
    RunStep(ttl, maxEntries, attempts, a);
    StoreIsWindow(ttl, maxEntries, attempts, a.now);
    RepeatsIsInWindow(before.log, ttl, maxEntries, a);
  }

  /** Within the capacity a nonce is accepted again only after its lifetime. */
  lemma {:induction false} RepeatsAreApart(ttl: nat, maxEntries: nat, attempts: seq<Attempt>, i: nat, j: nat)
    requires InOrder(attempts)
    requires i < j < |Run(ttl, maxEntries, attempts).log| && j - i <= Capacity(maxEntries)
    requires var log := Run(ttl, maxEntries, attempts).log; log[i].nonce == log[j].nonce
    ensures var log := Run(ttl, maxEntries, attempts).log; log[i].now + ttl <= log[j].now
  {
    hide Run;
    assert attempts != [] by { NothingRan(ttl, maxEntries); }
    var front, a := attempts[..|attempts| - 1], attempts[|attempts| - 1];
    var log := Run(ttl, maxEntries, front).log;
    assert attempts == front + [a];
    AcceptedIff(ttl, maxEntries, front, a);
    if j < |log| {
      RepeatsAreApart(ttl, maxEntries, front, i, j);
    }
  }

  // ----- the timestamp check in front of it -----

  predicate InWindow(skewSec: nat, a: Attempt) {
    -1000 * skewSec <= a.now - 1000 * a.timestamp <= 1000 * skewSec
  }

  /** The store's lifetime is twice the permitted skew. */
  function Lifetime(skewSec: nat): nat { skewSec * 1000 * 2 }

  /** Attempts outside the window never reach the store. */
  function Reaching(skewSec: nat, requests: seq<Attempt>): (rs: seq<Attempt>)
    ensures forall i :: 0 <= i < |rs| ==> InWindow(skewSec, rs[i]) && rs[i] in requests
  {
    if requests == [] then []
    else
      var r := requests[|requests| - 1];
      Reaching(skewSec, requests[..|requests| - 1]) + (if InWindow(skewSec, r) then [r] else [])
  }

  function Admitted(skewSec: nat, maxEntries: nat, requests: seq<Attempt>): seq<Attempt> {
    Run(Lifetime(skewSec), maxEntries, Reaching(skewSec, requests)).log
  }

  lemma {:induction false} ReachingInOrder(skewSec: nat, requests: seq<Attempt>)
    requires InOrder(requests)
    ensures InOrder(Reaching(skewSec, requests))
  {
    if requests != [] {
      ReachingInOrder(skewSec, requests[..|requests| - 1]);
    }
  }

  /** Replays: two requests with the same timestamp and nonce are both admitted, within the capacity, only at the two
      ends of their window, exactly twice the skew apart. */
  lemma {:induction false} ReplayOnlyAtTheEnds(skewSec: nat, maxEntries: nat, requests: seq<Attempt>, i: nat, j: nat)
    requires InOrder(requests)
    requires i < j < |Admitted(skewSec, maxEntries, requests)| && j - i <= Capacity(maxEntries)
    requires var log := Admitted(skewSec, maxEntries, requests);
             log[i].nonce == log[j].nonce && log[i].timestamp == log[j].timestamp
    ensures var log := Admitted(skewSec, maxEntries, requests);
            && log[j].now - log[i].now == Lifetime(skewSec)
            && log[i].now == 1000 * log[i].timestamp - 1000 * skewSec
            && log[j].now == 1000 * log[j].timestamp + 1000 * skewSec
  {
    hide Run;
    var reaching := Reaching(skewSec, requests);
    ReachingInOrder(skewSec, requests);
    RepeatsAreApart(Lifetime(skewSec), maxEntries, reaching, i, j);
    LogInOrder(Lifetime(skewSec), maxEntries, reaching);
    var log := Admitted(skewSec, maxEntries, requests);
    assert InWindow(skewSec, log[i]) && InWindow(skewSec, log[j]);
  }

  /** Within the capacity a repeat of an admitted request, with its timestamp and its nonce, is admitted exactly when
      the two come at the two ends of their window. */
  lemma {:induction false} ReplayAdmittedIff(skewSec: nat, maxEntries: nat, requests: seq<Attempt>, r: Attempt, i: nat)
    requires InOrder(requests + [r])
    requires i < |Admitted(skewSec, maxEntries, requests)|
    requires |Admitted(skewSec, maxEntries, requests)| - i <= Capacity(maxEntries)
    requires var log := Admitted(skewSec, maxEntries, requests);
             && log[i].nonce == r.nonce && log[i].timestamp == r.timestamp
             && forall k :: i < k < |log| ==> log[k].nonce != r.nonce
    ensures var log := Admitted(skewSec, maxEntries, requests);
            Admitted(skewSec, maxEntries, requests + [r]) == log + [r] <==>
              && log[i].now == 1000 * r.timestamp - 1000 * skewSec
              && r.now == 1000 * r.timestamp + 1000 * skewSec
  {
    hide Run, InOrder;
    var log := Admitted(skewSec, maxEntries, requests);
    var reaching := Reaching(skewSec, requests);
    AdmittedIff(skewSec, maxEntries, requests, r);
    FrontInOrder(requests + [r]);
    assert (requests + [r])[..|requests|] == requests;
    ReachingInOrder(skewSec, requests);
    LogInOrder(Lifetime(skewSec), maxEntries, reaching);
    assert InWindow(skewSec, log[i]);
    forall k | 0 <= k < i && log[k].nonce == r.nonce && |log| - Capacity(maxEntries) <= k
      ensures log[k].now + Lifetime(skewSec) <= log[i].now
    {
      RepeatsAreApart(Lifetime(skewSec), maxEntries, reaching, k, i);
    }
    assert |log + [r]| == |log| + 1;
  }

  /** Such a replay does get through: the first entry expires at the very moment the window still admits the second. */
  lemma {:induction false} ReplayAtTheEnds(skewSec: nat, maxEntries: nat, timestamp: int, nonce: string)
    ensures var first := Attempt(timestamp, nonce, 1000 * timestamp - 1000 * skewSec);
            var second := Attempt(timestamp, nonce, 1000 * timestamp + 1000 * skewSec);
            Admitted(skewSec, maxEntries, [first, second]) == [first, second]
  {
    hide Admitted, InOrder, Repeats;
    var first := Attempt(timestamp, nonce, 1000 * timestamp - 1000 * skewSec);
    var second := Attempt(timestamp, nonce, 1000 * timestamp + 1000 * skewSec);
    NothingAdmitted(skewSec, maxEntries);
    assert [] + [first] == [first] && [first] + [second] == [first, second];
    TwoInOrder(first, second);
    NothingRepeats(Lifetime(skewSec), maxEntries, first);
    AdmittedIff(skewSec, maxEntries, [], first);
    ExpiredByThen(first, Lifetime(skewSec), maxEntries, second);
    AdmittedIff(skewSec, maxEntries, [first], second);
  }

  lemma TwoInOrder(first: Attempt, second: Attempt)
    requires first.now <= second.now
    ensures InOrder([first]) && InOrder([first, second])
  {
  }

  lemma ExpiredByThen(first: Attempt, ttl: nat, maxEntries: nat, later: Attempt)
    requires first.now + ttl <= later.now
    ensures !Repeats([first], ttl, maxEntries, later)
  {
  }

  /** Past the capacity a nonce is forgotten at once: the bound, not the lifetime, then decides. */
  lemma {:induction false} ReplayPastCapacity(skewSec: nat, timestamp: int, nonce: string, other: string)
    requires nonce != other
    ensures var a := Attempt(timestamp, nonce, 1000 * timestamp);
            var b := Attempt(timestamp, other, 1000 * timestamp);
            Admitted(skewSec, 1, [a] + [b] + [a]) == [a] + [b] + [a]
  {
    hide *;
    var a := Attempt(timestamp, nonce, 1000 * timestamp);
    var b := Attempt(timestamp, other, 1000 * timestamp);
    NothingAdmitted(skewSec, 1);
    NothingRepeats(Lifetime(skewSec), 1, a);
    AdmittedAtOnce(skewSec, 1, [], a, timestamp);
    assert [] + [a] == [a];
    OnlyTheNewest([], a, Lifetime(skewSec), b);
    AdmittedAtOnce(skewSec, 1, [a], b, timestamp);
    OnlyTheNewest([a], b, Lifetime(skewSec), a);
    AdmittedAtOnce(skewSec, 1, [a] + [b], a, timestamp);
  }

  lemma AdmittedAtOnce(skewSec: nat, maxEntries: nat, requests: seq<Attempt>, r: Attempt, timestamp: int)
    requires r.timestamp == timestamp && forall a :: a in requests + [r] ==> a.now == 1000 * timestamp
    requires !Repeats(Admitted(skewSec, maxEntries, requests), Lifetime(skewSec), maxEntries, r)
    ensures Admitted(skewSec, maxEntries, requests + [r]) == Admitted(skewSec, maxEntries, requests) + [r]
  {
    hide Admitted, Lifetime, Repeats, InOrder;
    assert r in requests + [r];
    SameMoment(requests + [r]);
    AdmittedIff(skewSec, maxEntries, requests, r);
  }

  lemma SameMoment(attempts: seq<Attempt>)
    requires forall i, j :: 0 <= i < j < |attempts| ==> attempts[i].now == attempts[j].now
    ensures InOrder(attempts)
  {
  }

  lemma OnlyTheNewest(log: seq<Attempt>, newest: Attempt, ttl: nat, r: Attempt)
    requires newest.nonce != r.nonce
    ensures !Repeats(log + [newest], ttl, 1, r)
  {
  }

  lemma NothingRepeats(ttl: nat, maxEntries: nat, r: Attempt)
    ensures !Repeats([], ttl, maxEntries, r)
  {
  }

  /** A further request is admitted exactly when it is in its window and its nonce is not alive in the store's. */
  lemma {:induction false} AdmittedIff(skewSec: nat, maxEntries: nat, requests: seq<Attempt>, r: Attempt)
    requires InOrder(requests + [r])
    ensures var log := Admitted(skewSec, maxEntries, requests);
            Admitted(skewSec, maxEntries, requests + [r]) ==
              if InWindow(skewSec, r) && !Repeats(log, Lifetime(skewSec), maxEntries, r) then log + [r] else log
  {
    hide Run, InOrder, InWindow, Repeats;
    var reaching := Reaching(skewSec, requests);
    assert (requests + [r])[..|requests|] == requests;
    if InWindow(skewSec, r) {
      ReachingInOrder(skewSec, requests + [r]);
      AcceptedIff(Lifetime(skewSec), maxEntries, reaching, r);
    } else {
      assert reaching + [] == reaching;
    }
  }

  lemma NothingAdmitted(skewSec: nat, maxEntries: nat)
    ensures Admitted(skewSec, maxEntries, []) == []
  {
  }

  lemma NothingRan(ttl: nat, maxEntries: nat)
    ensures Run(ttl, maxEntries, []) == Ran([], [])
  {
  }

  // ----- the object -----

  class NonceStore {
    var seen: seq<Entry>
    const ttlMs: nat
    const maxEntries: nat

    constructor (ttlMs: nat, maxEntries: nat)
      ensures seen == [] && this.ttlMs == ttlMs && this.maxEntries == maxEntries
    {
      seen := [];
      this.ttlMs := ttlMs;
      this.maxEntries := maxEntries;
    }

    method Prune(now: int)
      modifies `seen
      ensures seen == Unexpired(old(seen), now)
    {
      hide Unexpired;
      var i := 0;
      ghost var done: seq<Entry> := [];
      NothingUnexpired(now);
      while i < |seen|
        invariant 0 <= i <= |seen|
        invariant old(seen) == done + seen[i..] && seen[..i] == Unexpired(done, now)
        decreases |seen| - i
      {
        var e := seen[i];
        UnexpiredNext(done, e, now);
        Around(done, seen, i);
        done := done + [e];
        if e.expiry <= now {
          seen := seen[..i] + seen[i + 1..];
        } else {
          i := i + 1;
        }
      }
      assert seen[i..] == [] && seen[..i] == seen;
      assert done + [] == done;
    }

    method CheckAndStore(nonce: string, now: int) returns (ok: bool)
      modifies `seen
      ensures ok <==> Fresh(old(seen), nonce, now)
      ensures seen == Stored(old(seen), nonce, now, ttlMs, maxEntries)
      ensures Distinct(old(seen)) ==> Distinct(seen)
    {
      hide Unexpired;
      Prune(now);
      if Distinct(old(seen)) {
        UnexpiredDistinct(old(seen), now);
      }
      if Has(seen, nonce) {
        return false;
      }
      if |seen| >= maxEntries {
        if seen != [] {
          seen := seen[1..];
        }
      }
      seen := seen + [Entry(nonce, now + ttlMs)];
      return true;
    }
  }

  /** The part of authentication that guards against replays. */
  method CheckReplay(store: NonceStore, skewSec: nat, a: Attempt) returns (ok: bool)
    modifies store`seen
    ensures ok <==> InWindow(skewSec, a) && Fresh(old(store.seen), a.nonce, a.now)
    ensures store.seen ==
              if InWindow(skewSec, a) then Stored(old(store.seen), a.nonce, a.now, store.ttlMs, store.maxEntries)
              else old(store.seen)
  {
    var late := a.now - 1000 * a.timestamp;
    if (if late < 0 then -late else late) > 1000 * skewSec {
      return false;
    }
    ok := store.CheckAndStore(a.nonce, a.now);
  }
}
