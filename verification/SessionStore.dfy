/** The session dictionary of the key pair manager (implementations/keypair_manager_impl.py). */
module SessionStore {
  import opened Basics

  datatype Session = Session(jobId: Text, privateKey: Bytes, publicKey: Text, createdAt: real, ttl: real)
  type Store = map<Text, Session>

  const ALLOWED_KEY_SIZES := [2048, 3072, 4096]

  /** `_is_session_valid`, and the negation of the purge condition. */
  predicate Live(s: Session, now: real) { now - s.createdAt < s.ttl }

  /** A session that has expired stays expired. */
  lemma ExpiryIsFinal(s: Session, now: real, later: real)
    requires !Live(s, now) && now <= later
    ensures !Live(s, later)
  {
  }

  /** `_get_valid_session`: an expired session is dropped on the way. */
  function Lookup(store: Store, sid: Text, now: real): (Store, Option<Session>) {
    if sid !in store then (store, None)
    else if !Live(store[sid], now) then (store - {sid}, None)
    else (store, Some(store[sid]))
  }

  /** The sessions a purge with this reading of the clock removes. */
  function Expired(store: Store, now: real): set<Text> { set sid | sid in store && !Live(store[sid], now) }

  /** The manager: one dictionary, every method holding the lock for its whole access. */
  class KeyPairManager {
    var activeSessions: Store
    const defaultTtl: real

    constructor (ttl: real)
      ensures activeSessions == map[] && defaultTtl == ttl
    {
      activeSessions := map[];
      defaultTtl := ttl;
    }

    /** Key material, id and creation time come from outside: the library, the random source and the clock. */
    method GenerateKeypair(jobId: Text, keySize: nat, privateKey: Bytes, publicKey: Text, sessionId: Text,
                           createdAt: real)
      returns (ok: bool)
      modifies this`activeSessions
      ensures ok <==> keySize == 2048 || keySize == 3072 || keySize == 4096
      ensures activeSessions ==
        if ok then old(activeSessions)[sessionId := Session(jobId, privateKey, publicKey, createdAt, defaultTtl)]
        else old(activeSessions)
    {
      if keySize !in ALLOWED_KEY_SIZES { return false; }
      var session := Session(jobId, privateKey, publicKey, createdAt, defaultTtl);
      activeSessions := activeSessions[sessionId := session];
      ok := true;
    }

    method GetValidSession(sessionId: Text, now: real) returns (r: Option<Session>)
      modifies this`activeSessions
      ensures (activeSessions, r) == Lookup(old(activeSessions), sessionId, now)
      ensures r.Some? <==>
        && sessionId in old(activeSessions)
        && now - old(activeSessions)[sessionId].createdAt < old(activeSessions)[sessionId].ttl
      ensures r.Some? ==> r.value == old(activeSessions)[sessionId] && activeSessions == old(activeSessions)
      ensures r.None? ==> activeSessions == old(activeSessions) - {sessionId}
    {
      if sessionId !in activeSessions { return None; }
      var session := activeSessions[sessionId];
      if !Live(session, now) {
        activeSessions := activeSessions - {sessionId};
        return None;
      }
      r := Some(session);
    }

    method GetPublicKey(sessionId: Text, now: real) returns (r: Option<Text>)
      modifies this`activeSessions
      ensures activeSessions == Lookup(old(activeSessions), sessionId, now).0
      ensures r ==
        match Lookup(old(activeSessions), sessionId, now).1 case None => None case Some(s) => Some(s.publicKey)
    {
      var session := GetValidSession(sessionId, now);
      r := if session.None? then None else Some(session.value.publicKey);
    }

    method GetPrivateKey(sessionId: Text, now: real) returns (r: Option<Bytes>)
      modifies this`activeSessions
      ensures activeSessions == Lookup(old(activeSessions), sessionId, now).0
      ensures r ==
        match Lookup(old(activeSessions), sessionId, now).1 case None => None case Some(s) => Some(s.privateKey)
    {
      var session := GetValidSession(sessionId, now);
      r := if session.None? then None else Some(session.value.privateKey);
    }

    method DeleteKeypair(sessionId: Text) returns (deleted: bool)
      modifies this`activeSessions
      ensures deleted <==> sessionId in old(activeSessions)
      ensures activeSessions == old(activeSessions) - {sessionId}
    {
      if sessionId in activeSessions {
        activeSessions := activeSessions - {sessionId};
        return true;
      }
      deleted := false;
    }

    /** `_purge_expired_sessions` with the clock read before the lock was taken: list the expired ids, then delete
        each. */
    method PurgeExpiredSessions(now: real)
      modifies this`activeSessions
      ensures activeSessions == old(activeSessions) - Expired(old(activeSessions), now)
      ensures forall sid :: sid in activeSessions <==>
        && sid in old(activeSessions)
        && now - old(activeSessions)[sid].createdAt < old(activeSessions)[sid].ttl
      ensures forall sid :: sid in activeSessions ==> activeSessions[sid] == old(activeSessions)[sid]
    {
      var expired := Expired(activeSessions, now);
      ghost var all := expired;
      while expired != {}
        invariant expired <= all <= old(activeSessions).Keys
        invariant activeSessions == old(activeSessions) - (all - expired)
        decreases expired
      {
        var sid :| sid in expired;
        activeSessions := activeSessions - {sid};
        expired := expired - {sid};
      }
    }
  }
}
