/** The in-memory store of identity challenges, keyed by the hash of their code. */
module ChallengeStore {
  import opened Sequences

  datatype Webhook = Webhook(url: string, secret: string)

  datatype Challenge = Challenge(
    codeHash: string,
    wpUserId: int,
    expiresAt: int,
    attempts: nat,
    consumed: bool,
    webhook: Webhook,
    verifiedAt: Option<int>,
    delivered: bool)

  type Store = map<string, Challenge>

  function Active(s: Store, codeHash: string, now: int): bool {
    codeHash in s && !s[codeHash].consumed && now <= s[codeHash].expiresAt
  }

  function Pruned(s: Store, now: int): Store {
    map h | h in s && now <= s[h].expiresAt :: s[h]
  }

  function Consumed(s: Store, codeHash: string): Store {
    if codeHash in s then s[codeHash := s[codeHash].(consumed := true)] else s
  }

  function Delivered(s: Store, codeHash: string): Store {
    if codeHash in s then s[codeHash := s[codeHash].(delivered := true)] else s
  }

  class ChallengeStore {
    var challenges: Store

    constructor ()
      ensures challenges == map[]
    {
      challenges := map[];
    }

    method Register(challenge: Challenge)
      modifies this
      ensures challenges == old(challenges)[challenge.codeHash := challenge]
    {
      challenges := challenges[challenge.codeHash := challenge];
    }

    /** The caller hashes the code. */
    method FindActive(codeHash: string, now: int) returns (found: Option<Challenge>)
      ensures found.Some? <==> Active(challenges, codeHash, now)
      ensures found.Some? <==>
                codeHash in challenges && !challenges[codeHash].consumed && now <= challenges[codeHash].expiresAt
      ensures found.Some? ==> found.value == challenges[codeHash]
    {
      if codeHash !in challenges {
        return None;
      }
      var challenge := challenges[codeHash];
      if challenge.consumed || now > challenge.expiresAt {
        return None;
      }
      return Some(challenge);
    }

    method MarkConsumed(codeHash: string)
      modifies this
      ensures challenges == Consumed(old(challenges), codeHash)
      ensures challenges.Keys == old(challenges).Keys
      ensures forall h :: h in challenges ==>
                            challenges[h]
                              == old(challenges)[h].(consumed := h == codeHash || old(challenges)[h].consumed)
    {
      if codeHash in challenges {
        challenges := challenges[codeHash := challenges[codeHash].(consumed := true)];
      }
    }

    method MarkDelivered(codeHash: string)
      modifies this
      ensures challenges == Delivered(old(challenges), codeHash)
      ensures challenges.Keys == old(challenges).Keys
      ensures forall h :: h in challenges ==>
                            challenges[h]
                              == old(challenges)[h].(delivered := h == codeHash || old(challenges)[h].delivered)
    {
      if codeHash in challenges {
        challenges := challenges[codeHash := challenges[codeHash].(delivered := true)];
      }
    }

    method Prune(now: int)
      modifies this
      ensures challenges == Pruned(old(challenges), now)
      ensures forall h :: h in challenges <==> h in old(challenges) && now <= old(challenges)[h].expiresAt
      ensures forall h :: h in challenges ==> challenges[h] == old(challenges)[h]
    {
      var hashes := challenges.Keys;
      while hashes != {}
        invariant hashes <= old(challenges).Keys
        invariant forall h :: h in challenges <==>
                    h in old(challenges) && (h in hashes || now <= old(challenges)[h].expiresAt)
        invariant forall h :: h in challenges ==> challenges[h] == old(challenges)[h]
        decreases |hashes|
      {
        var hash :| hash in hashes;
        hashes := hashes - {hash};
        if now > challenges[hash].expiresAt {
          challenges := challenges - {hash};
        }
      }
    }

    /** What the verifier writes into a challenge it holds. */
    method SetAttempts(codeHash: string, attempts: nat)
      requires codeHash in challenges
      modifies this
      ensures challenges == old(challenges)[codeHash := old(challenges)[codeHash].(attempts := attempts)]
    {
      challenges := challenges[codeHash := challenges[codeHash].(attempts := attempts)];
    }

    method SetVerifiedAt(codeHash: string, now: int)
      requires codeHash in challenges
      modifies this
      ensures challenges == old(challenges)[codeHash := old(challenges)[codeHash].(verifiedAt := Some(now))]
    {
      challenges := challenges[codeHash := challenges[codeHash].(verifiedAt := Some(now))];
    }
  }
}
