/** The stored binding of a user to a TeamSpeak identity, and the object that reads and overwrites it. */
module IdentityMapping {
  import opened Sequences

  datatype Status = Unbound | Pending | Verified | Revoked | Unknown(text: string)

  datatype Mapping = Mapping(
    uid: string, status: Status, boundAt: int, verifiedAt: int, how: string, lastSyncAt: int, nodeId: string)

  /** A record that may lack any field: what is stored, or what is to be changed. */
  datatype Fields = Fields(
    uid: Option<string>, status: Option<Status>, boundAt: Option<int>, verifiedAt: Option<int>, how: Option<string>,
    lastSyncAt: Option<int>, nodeId: Option<string>)

  const NOTHING: Fields := Fields(None, None, None, None, None, None, None)
  const DEFAULT: Mapping := Mapping("", Unbound, 0, 0, "", 0, "")

  function Or<T>(o: Option<T>, otherwise: T): T { if o.Some? then o.value else otherwise }

  /** The mapping with the given fields replaced. */
  function Overlaid(m: Mapping, f: Fields): Mapping {
    Mapping(Or(f.uid, m.uid), Or(f.status, m.status), Or(f.boundAt, m.boundAt), Or(f.verifiedAt, m.verifiedAt),
            Or(f.how, m.how), Or(f.lastSyncAt, m.lastSyncAt), Or(f.nodeId, m.nodeId))
  }

  function Whole(m: Mapping): Fields {
    Fields(Some(m.uid), Some(m.status), Some(m.boundAt), Some(m.verifiedAt), Some(m.how), Some(m.lastSyncAt),
           Some(m.nodeId))
  }

  /** The stored record, else the one of the former key, completed by the defaults. */
  function Read(stored: Fields, legacy: Fields): Mapping {
    Overlaid(DEFAULT, if stored != NOTHING then stored else legacy)
  }

  /** A status outside the model is not written. */
  function Permitted(f: Fields): Fields {
    if f.status.Some? && f.status.value.Unknown? then f.(status := None) else f
  }

  lemma {:induction false} ReadBack(m: Mapping, legacy: Fields)
    ensures Read(Whole(m), legacy) == m
  {
  }

  /** A record left under the former key counts until the first write, and not after; a user with neither is unbound. */
  lemma LegacyUntilWritten(m: Mapping, stored: Fields, legacy: Fields)
    ensures Read(NOTHING, NOTHING) == Mapping("", Unbound, 0, 0, "", 0, "")
    ensures Read(NOTHING, Whole(m)) == m && Read(Whole(m), legacy) == m
    ensures stored != NOTHING ==> Read(stored, legacy) == Read(stored, NOTHING)
    ensures stored == NOTHING ==> Read(stored, legacy) == Read(legacy, NOTHING)
  {
  }

  const CHALLENGE: string := "challenge"
  const AGENT_AUTO: string := "agent-auto"

  function PendingFields(now: int): Fields {
    NOTHING.(status := Some(Pending), how := Some(CHALLENGE), boundAt := Some(now))
  }

  function VerifiedFields(uid: string, nodeId: string, now: int): Fields {
    Fields(Some(uid), Some(Verified), None, Some(now), Some(AGENT_AUTO), Some(now), Some(nodeId))
  }

  function At(metas: map<int, Fields>, user: int): Fields { if user in metas then metas[user] else NOTHING }

  class Mappings {
    var meta: map<int, Fields>
    const legacy: map<int, Fields>

    constructor (meta: map<int, Fields>, legacy: map<int, Fields>)
      ensures this.meta == meta && this.legacy == legacy
    {
      this.meta := meta;
      this.legacy := legacy;
    }

    function Get(user: int): Mapping
      reads `meta
    {
      Read(At(meta, user), At(legacy, user))
    }

    /** What is read back afterwards is the mapping with the fields replaced; other users keep theirs. */
    method Set(user: int, f: Fields)
      modifies `meta
      ensures Get(user) == Overlaid(old(Get(user)), Permitted(f))
      ensures Get(user).status == if f.status.Some? && f.status.value in {Unbound, Pending, Verified, Revoked}
                                  then f.status.value
                                  else old(Get(user)).status
      ensures forall v :: v != user ==> Get(v) == old(Get(v))
      ensures meta == old(meta)[user := Whole(Overlaid(old(Get(user)), Permitted(f)))]
    {
      var f := f;
      if f.status.Some? && f.status.value !in {Unbound, Pending, Verified, Revoked} {
        f := f.(status := None);
      }
      meta := meta[user := Whole(Overlaid(Get(user), f))];
    }

    method MarkVerified(user: int, uid: string, nodeId: string, now: int, sanitize: string -> string)
      modifies `meta
      ensures Get(user).status == Verified && Get(user).uid == sanitize(uid)
      ensures Get(user) == Overlaid(old(Get(user)), VerifiedFields(sanitize(uid), sanitize(nodeId), now))
      ensures Get(user)
              == Mapping(sanitize(uid), Verified, old(Get(user)).boundAt, now, AGENT_AUTO, now, sanitize(nodeId))
      ensures forall v :: v != user ==> Get(v) == old(Get(v))
    {
      Set(user, VerifiedFields(sanitize(uid), sanitize(nodeId), now));
    }
  }
}
