/** The key pair manager is the store of the protocol: running its methods where the protocol touches the dictionary
    keeps the object's dictionary equal to the protocol's, and answers what the protocol logs. */
module ManagerRefines {
  import opened Basics
  import opened SessionStore
  import opened Protocol
  import opened ProtocolInvariant
  import Decrypt
  import Proof

  /** The call a thread makes on the manager in its next step. */
  datatype Call =
    | NoCall
    | PublicKey(sid: Text)
    | PrivateKey(sid: Text)
    | Insert(sid: Text, session: Session)
    | Delete(sid: Text)

  function NextCall(th: Thread): Call {
    match th.pc
    case Start =>
      if !WellFormed(th.request) then NoCall
      else if th.request.Attestation? then PublicKey(SidOf(th.request))
      else if th.request.Execute? then PrivateKey(SidOf(th.request))
      else NoCall
    case Drawn(sid, session) => Insert(sid, session)
    case Inserted(sid) => PublicKey(sid)
    case ZipOpen(_, _) => PrivateKey(SidOf(th.request))
    case Ran(_) => Delete(SidOf(th.request))
    case _ => NoCall
  }

  /** What the manager answers. */
  datatype Answer = Silent | Shown(publicKey: Option<Text>) | Given(privateKey: Option<Bytes>)

  /** A key that was answered is logged, and nothing else is; no key ends the thread. */
  ghost predicate Answered(s: State, s': State, t: nat, call: Call, a: Answer) {
    match call
    case PublicKey(sid) =>
      && a.Shown?
      && (match a.publicKey
          case Some(k) => s'.log == s.log + [PublicFetched(t, sid, k, s.clock)]
          case None => t in s'.threads && s'.threads[t].pc.Done?)
    case PrivateKey(sid) =>
      && a.Given?
      && (match a.privateKey
          case Some(k) => s'.log == s.log + [PrivateFetched(t, sid, k, s.clock)]
          case None => t in s'.threads && s'.threads[t].pc == Done(false))
    case _ => a.Silent?
  }

  /** The answer to a call on this store. */
  function Reply(s: State, call: Call): Answer {
    match call
    case PublicKey(sid) =>
      (match Lookup(s.store, sid, s.clock).1 case None => Shown(None) case Some(x) => Shown(Some(x.publicKey)))
    case PrivateKey(sid) =>
      (match Lookup(s.store, sid, s.clock).1 case None => Given(None) case Some(x) => Given(Some(x.privateKey)))
    case _ => Silent
  }

  function StoreAfter(s: State, call: Call): Store {
    match call
    case NoCall => s.store
    case PublicKey(sid) => Lookup(s.store, sid, s.clock).0
    case PrivateKey(sid) => Lookup(s.store, sid, s.clock).0
    case Insert(sid, session) => s.store[sid := session]
    case Delete(sid) => s.store - {sid}
  }

  lemma FetchSteps(s: State, t: nat, sid: Text)
    requires t in s.threads
    ensures forall b :: FetchPublic(s, t, sid, b).store == Lookup(s.store, sid, s.clock).0
                        && Answered(s, FetchPublic(s, t, sid, b), t, PublicKey(sid), Reply(s, PublicKey(sid)))
    ensures forall a :: FetchPrivate(s, t, sid, a).store == Lookup(s.store, sid, s.clock).0
                        && Answered(s, FetchPrivate(s, t, sid, a), t, PrivateKey(sid), Reply(s, PrivateKey(sid)))
  {
  }

  /** A thread's step changes the store as the call it makes says. */
  lemma StepCalls(env: Env, s: State, t: nat, c: Choice)
    requires t in s.threads && PcOk(s.log, t, s.threads[t]) && !s.threads[t].pc.Done?
    ensures var call := NextCall(s.threads[t]);
      && Advance(env, s, t, c).store == StoreAfter(s, call)
      && Answered(s, Advance(env, s, t, c), t, call, Reply(s, call))
  {
    hide Answered, Reply, FetchPublic, FetchPrivate, Decrypt.DecryptCombined, RunExecution, KeyUserData, Proof.ProofOf;
    NoAnswer(s, Advance(env, s, t, c), t);
    match s.threads[t].pc
    case Start => FetchSteps(s, t, SidOf(s.threads[t].request));
    case Inserted(sid) => FetchSteps(s, t, sid);
    case ZipOpen(_, _) => FetchSteps(s, t, SidOf(s.threads[t].request));
    case _ =>
  }

  lemma NoAnswer(s: State, s': State, t: nat)
    ensures Answered(s, s', t, NoCall, Reply(s, NoCall))
    ensures forall sid :: Answered(s, s', t, Delete(sid), Reply(s, Delete(sid)))
    ensures forall sid, x :: Answered(s, s', t, Insert(sid, x), Reply(s, Insert(sid, x)))
  {
  }

  /** One step of the system, played on the manager object. */
  method Serve(env: Env, s: State, step: Step, manager: KeyPairManager) returns (answer: Answer)
    requires Inv(env, s) && Enabled(env, s, step) && manager.activeSessions == s.store && manager.defaultTtl == env.ttl
    modifies manager`activeSessions
    ensures manager.activeSessions == Next(env, s, step).store
    ensures step.Go? ==> Answered(s, Next(env, s, step), step.t, NextCall(s.threads[step.t]), answer)
  {
    hide Inv, Advance, Answered, Reply, Lookup, Expired;
    answer := Silent;
    match step
    case PurgeApply => manager.PurgeExpiredSessions(s.purge.value);
    case Go(t, c) =>
      Facts(env, s, t);
      StepCalls(env, s, t, c);
      answer := ServeCall(s, s.threads[t].request, NextCall(s.threads[t]), manager);
    case _ =>
  }

  lemma Facts(env: Env, s: State, t: nat)
    requires Inv(env, s) && t in s.threads
    ensures ThreadsOk(s) && PcOk(s.log, t, s.threads[t])
    ensures s.threads[t].pc.Drawn? ==> DrawnFor(env, s.threads[t].request, s.threads[t].pc.session)
  {
    hide StoreOk, EventsOk, PcOk, HasFinished, HasRun, CleanedAfter;
  }

  method ServeCall(s: State, r: Request, call: Call, manager: KeyPairManager) returns (answer: Answer)
    requires manager.activeSessions == s.store
    requires call.Insert? ==>
      && (r.Generate? || r.Proxy?) && r.keySize in ALLOWED_KEY_SIZES
      && call.session.ttl == manager.defaultTtl
    modifies manager`activeSessions
    ensures manager.activeSessions == StoreAfter(s, call) && answer == Reply(s, call)
  {
    answer := Silent;
    match call
    case NoCall =>
    case PublicKey(sid) =>
      var key := manager.GetPublicKey(sid, s.clock);
      answer := Shown(key);
    case PrivateKey(sid) =>
      var key := manager.GetPrivateKey(sid, s.clock);
      answer := Given(key);
    case Insert(sid, x) =>
      var ok := manager.GenerateKeypair(x.jobId, r.keySize, x.privateKey, x.publicKey, sid, x.createdAt);
    case Delete(sid) =>
      var found := manager.DeleteKeypair(sid);
  }
}
