/** Requests as JSON (implementations/request_handler_impl.py:40-74,235-258,451-457). */
module Requests {
  import opened Basics
  import opened Json
  import opened Protocol
  import JsonRoundTrip
  import Framing
  import Manifest
  import Utf8

  /** A dictionary read from JSON: of members with the same key the last one counts. */
  function Last(ms: seq<Keyed<Value>>, k: Text): Option<Value> {
    if ms == [] then None
    else if ms[|ms| - 1].key == k then Some(ms[|ms| - 1].value)
    else Last(ms[..|ms| - 1], k)
  }

  /** A required text: None if absent. The outer None is a value of another type. */
  function Required(ms: seq<Keyed<Value>>, k: Text): Option<Option<Text>> {
    match Last(ms, k)
    case None => Some(None)
    case Some(Str(t)) => Some(Some(t))
    case _ => None
  }

  /** An optional text, for which null is as good as absent. */
  function Optional(ms: seq<Keyed<Value>>, k: Text): Option<Option<Text>> {
    if Last(ms, k) == Some(Null) then Some(None) else Required(ms, k)
  }

  function KeySize(ms: seq<Keyed<Value>>): Option<nat> {
    match Last(ms, A("key_size"))
    case None => Some(2048)
    case Some(Int(n)) => Some(if n < 0 then 0 else n)
    case _ => None
  }

  /** The request a parsed text stands for; None if a field the handler uses is of another type than it expects. */
  function ReadRequest(v: Value): Option<Request> {
    if !v.Obj? then Some(Harmless(false))
    else
      var ms := v.members;
      match Last(ms, A("operation"))
      case Some(Str(op)) =>
        if op == A("generate_rsa_keypair") then
          (match (Required(ms, A("job_id")), KeySize(ms))
           case (Some(job), Some(size)) => Some(Generate(job, size))
           case _ => None)
        else if op == A("get_attestation_for_proxy") then
          (match (Required(ms, A("job_id")), KeySize(ms))
           case (Some(job), Some(size)) => Some(Proxy(job, size))
           case _ => None)
        else if op == A("get_attestation") then
          (match Required(ms, A("session_id"))
           case Some(sid) => Some(Attestation(sid, Last(ms, A("user_data")).Some?))
           case _ => None)
        else if op == A("execute_script_rsa_hybrid") then ReadExecute(ms)
        else Some(Harmless(op == A("health_check") || op == A("get_enclave_info")))
      case _ => Some(Harmless(false))
  }

  function ReadExecute(ms: seq<Keyed<Value>>): Option<Request> {
    match (Required(ms, A("session_id")), Required(ms, A("encrypted_data")), Optional(ms, A("encrypted_csv")),
           Optional(ms, A("atl_nonce")), Optional(ms, A("atl_context_hash")))
    case (Some(sid), Some(data), Some(csv), Some(nonce), Some(context)) => Some(Execute(sid, data, csv, nonce, context))
    case _ => None
  }

  /** The request in the bytes of a message, framed or raw. */
  function WireRequest(b: Bytes): Option<Request> {
    match Utf8.Decode(b)
    case None => None
    case Some(t) => match Loads(t) case None => Some(Harmless(false)) case Some(v) => ReadRequest(v)
  }

  // ---- strings of a request are clean ----

  lemma {:induction false} LastIsMember(ms: seq<Keyed<Value>>, k: Text)
    ensures Last(ms, k).Some? ==> Keyed(k, Last(ms, k).value) in ms
  {
    if ms != [] && ms[|ms| - 1].key != k { LastIsMember(ms[..|ms| - 1], k); }
  }

  /** The context of a request that came over the wire holds no surrogate pair. */
  lemma WireContextIsClean(b: Bytes)
    requires WireRequest(b).Some? && WireRequest(b).value.Execute? && WireRequest(b).value.contextHash.Some?
    ensures JsonRoundTrip.Unpaired(WireRequest(b).value.contextHash.value)
  {
    hide A, Last, Utf8.Decode, Loads, JsonRoundTrip.Unpaired;
    JsonRoundTrip.ReceivedIsClean(b);
    var v := Loads(Utf8.Decode(b).value).value;
    LastIsMember(v.members, A("atl_context_hash"));
  }

  // ---- what a client sends is what the handler reads ----

  function Member(k: Bytes, t: Option<Text>): (ms: seq<Keyed<Value>>)
    ensures forall m :: m in ms ==> m.key == k && Plain(m.value)
  {
    if t.None? then [] else [Keyed(k, Str(t.value))]
  }

  /** An execution request as a client writes it. */
  function ExecuteJson(r: Request): (v: Value)
    requires r.Execute?
    ensures Plain(v)
  {
    Obj([Keyed(A("operation"), Str(A("execute_script_rsa_hybrid")))]
        + Member(A("session_id"), r.sessionId) + Member(A("encrypted_data"), r.data) + Member(A("encrypted_csv"), r.csv)
        + Member(A("atl_nonce"), r.atlNonce) + Member(A("atl_context_hash"), r.contextHash))
  }

  lemma LastSnoc(ms: seq<Keyed<Value>>, k: Bytes, t: Option<Text>)
    ensures forall k' :: Last(ms + Member(k, t), k') == if k' == k && t.Some? then Some(Str(t.value)) else Last(ms, k')
  {
    var all := ms + Member(k, t);
    if t.Some? {
      assert all[..|all| - 1] == ms && all[|all| - 1] == Keyed(k, Str(t.value));
    } else {
      assert all == ms;
    }
  }

  /** Lengths and first letters tell the keys apart. */
  lemma KeysApart()
    ensures |A("operation")| == 9 && |A("atl_nonce")| == 9 && A("operation")[0] != A("atl_nonce")[0]
    ensures |A("session_id")| == 10 && |A("encrypted_data")| == 14 && |A("encrypted_csv")| == 13
    ensures |A("atl_context_hash")| == 16
    ensures |A("execute_script_rsa_hybrid")| == 25 && |A("generate_rsa_keypair")| == 20
    ensures |A("get_attestation_for_proxy")| == 25 && A("get_attestation_for_proxy")[0] == 0x67
    ensures A("execute_script_rsa_hybrid")[0] == 0x65 && |A("get_attestation")| == 15
  {
  }

  function StrOf(t: Option<Text>): Option<Value> { if t.None? then None else Some(Str(t.value)) }

  lemma ExecuteMembers(r: Request)
    requires r.Execute?
    ensures var ms := ExecuteJson(r).members;
      && Last(ms, A("operation")) == Some(Str(A("execute_script_rsa_hybrid")))
      && Last(ms, A("session_id")) == StrOf(r.sessionId) && Last(ms, A("encrypted_data")) == StrOf(r.data)
      && Last(ms, A("encrypted_csv")) == StrOf(r.csv) && Last(ms, A("atl_nonce")) == StrOf(r.atlNonce)
      && Last(ms, A("atl_context_hash")) == StrOf(r.contextHash)
  {
    hide A, Last, Member, Plain;
    KeysApart();
    var m0 := [Keyed(A("operation"), Str(A("execute_script_rsa_hybrid")))];
    FirstMember(m0[0]);
    var m1 := m0 + Member(A("session_id"), r.sessionId);
    var m2 := m1 + Member(A("encrypted_data"), r.data);
    var m3 := m2 + Member(A("encrypted_csv"), r.csv);
    var m4 := m3 + Member(A("atl_nonce"), r.atlNonce);
    LastSnoc(m0, A("session_id"), r.sessionId);
    LastSnoc(m1, A("encrypted_data"), r.data);
    LastSnoc(m2, A("encrypted_csv"), r.csv);
    LastSnoc(m3, A("atl_nonce"), r.atlNonce);
    LastSnoc(m4, A("atl_context_hash"), r.contextHash);
  }

  lemma ReadsExecute(ms: seq<Keyed<Value>>)
    requires Last(ms, A("operation")) == Some(Str(A("execute_script_rsa_hybrid")))
    ensures ReadRequest(Obj(ms)) == ReadExecute(ms)
  {
    KeysApart();
    hide A, Last, ReadExecute;
  }

  lemma ExecuteReads(r: Request)
    requires r.Execute?
    ensures ReadRequest(ExecuteJson(r)) == Some(r)
  {
    hide A, Last, Member, Plain, ReadRequest;
    ExecuteMembers(r);
    ReadsExecute(ExecuteJson(r).members);
  }

  predicate CleanText(t: Option<Text>) { t.Some? ==> JsonRoundTrip.Unpaired(t.value) }

  predicate CleanExecute(r: Request)
    requires r.Execute?
  {
    CleanText(r.sessionId) && CleanText(r.data) && CleanText(r.csv) && CleanText(r.atlNonce) && CleanText(r.contextHash)
  }

  lemma ExecuteIsClean(r: Request)
    requires r.Execute? && CleanExecute(r)
    ensures JsonRoundTrip.Clean(ExecuteJson(r))
  {
    hide A, Member, CleanText, JsonRoundTrip.Unpaired, Plain;
    Manifest.BytesUnpaired(A("operation"));
    Manifest.BytesUnpaired(A("execute_script_rsa_hybrid"));
    MemberClean(A("session_id"), r.sessionId);
    MemberClean(A("encrypted_data"), r.data);
    MemberClean(A("encrypted_csv"), r.csv);
    MemberClean(A("atl_nonce"), r.atlNonce);
    MemberClean(A("atl_context_hash"), r.contextHash);
  }

  lemma MemberClean(k: Bytes, t: Option<Text>)
    requires CleanText(t)
    ensures forall m :: m in Member(k, t) ==> JsonRoundTrip.Unpaired(m.key) && JsonRoundTrip.Clean(m.value)
  {
    hide JsonRoundTrip.Unpaired;
    Manifest.BytesUnpaired(k);
  }

  lemma ExecuteWire(r: Request, style: Style)
    requires r.Execute? && CleanExecute(r)
    ensures var wire := Dumps(ExecuteJson(r), style);
      && Framing.ObjectText(wire) && wire[|wire| - 1] == RBRACE && Utf8.Decode(wire) == Some(wire)
      && WireRequest(wire) == Some(r)
  {
    hide Utf8.Decode, Loads, ReadRequest, DumpsMembers, JsonRoundTrip.Clean, CleanExecute;
    var v := ExecuteJson(r);
    ExecuteReads(r);
    ExecuteIsClean(r);
    JsonRoundTrip.RoundTripExactly(v, style);
    JsonRoundTrip.DumpsPrintable(v, style);
    Utf8.EncodeAscii(Dumps(v, style));
  }

  /** Braces, a quoted key, a colon and a value take more than four bytes. */
  lemma WireIsLong(r: Request, style: Style)
    requires r.Execute?
    ensures |Dumps(ExecuteJson(r), style)| > Framing.HEADER_SIZE
  {
    hide A, Member, EscapeAll;
    var ms := ExecuteJson(r).members;
    assert ms != [] && |Quoted(ms[0].key)| >= 2;
    assert |DumpsMember(ms[0], style)| >= 4;
    assert |DumpsMembers(ms, style)| >= 4;
  }

  /** An execution request printed as JSON is delivered whole by both receive paths, raw under every cutting and to a
      peer that keeps the connection open as well, framed with anything after it; and the handler reads the very
      request. */
  lemma ExecuteArrives(r: Request, style: Style, max: nat, after: Bytes)
    requires r.Execute? && CleanExecute(r)
    ensures var wire := Dumps(ExecuteJson(r), style);
      && WireRequest(wire) == Some(r)
      && (forall peer: Framing.Peer :: peer.sent == wire && |wire| <= max ==>
            |wire| >= Framing.HEADER_SIZE && Framing.RawResult(peer, max) == (Framing.Request(wire, false), |wire|))
      && (|wire| <= max && |wire| < 0x1_0000_0000 ==> forall closes ::
            Framing.FramedResult(Framing.Frame(wire).value + after, closes, max) ==
            (Framing.Request(wire, true), Framing.HEADER_SIZE + |wire|))
  {
    hide Utf8.Decode, Dumps, ExecuteJson, WireRequest, Framing.ObjectText, Framing.RawResult, Framing.FramedResult;
    var wire := Dumps(ExecuteJson(r), style);
    ExecuteWire(r, style);
    WireIsLong(r, style);
    forall peer: Framing.Peer | peer.sent == wire && |wire| <= max
      ensures Framing.RawResult(peer, max) == (Framing.Request(wire, false), |wire|)
    {
      Framing.RawDelivers(wire, peer, max);
    }
    if |wire| <= max && |wire| < 0x1_0000_0000 {
      forall closes: bool
        ensures Framing.FramedResult(Framing.Frame(wire).value + after, closes, max) ==
                (Framing.Request(wire, true), Framing.HEADER_SIZE + |wire|)
      {
        Framing.FrameRoundTrip(wire, after, closes, max);
      }
    }
  }

  lemma FirstMember(m: Keyed<Value>)
    ensures forall k :: Last([m], k) == if k == m.key then Some(m.value) else None
  {
    assert [m][..0] == [];
  }

  /** An optional field that is null counts as absent. */
  lemma NullIsAbsent(r: Request)
    requires r.Execute?
    ensures var ms := ExecuteJson(r).members;
      && ReadRequest(Obj(ms + [Keyed(A("encrypted_csv"), Null)])) == Some(r.(csv := None))
      && ReadRequest(Obj(ms + [Keyed(A("atl_nonce"), Null)])) == Some(r.(atlNonce := None))
      && ReadRequest(Obj(ms + [Keyed(A("atl_context_hash"), Null)])) == Some(r.(contextHash := None))
  {
    hide ReadRequest;
    NullField(r, A("encrypted_csv"));
    NullField(r, A("atl_nonce"));
    NullField(r, A("atl_context_hash"));
    KeysApart();
  }

  lemma NullField(r: Request, k: Bytes)
    requires r.Execute? && (k == A("encrypted_csv") || k == A("atl_nonce") || k == A("atl_context_hash"))
    ensures ReadRequest(Obj(ExecuteJson(r).members + [Keyed(k, Null)])) == Some(Execute(
      r.sessionId, r.data, if k == A("encrypted_csv") then None else r.csv,
      if k == A("atl_nonce") then None else r.atlNonce, if k == A("atl_context_hash") then None else r.contextHash))
  {
    KeysApart();
    hide A, Last, Member, Plain, ReadRequest;
    ExecuteMembers(r);
    var ms := ExecuteJson(r).members;
    forall k': Text ensures Last(ms + [Keyed(k, Null)], k') == if k' == k then Some(Null) else Last(ms, k') {
      LastWins(ms, k, Null, k');
    }
    ReadsExecute(ms + [Keyed(k, Null)]);
  }

  // ---- the other operations ----

  /** Of repeated keys the last one counts. */
  lemma LastWins(ms: seq<Keyed<Value>>, k: Text, v: Value, k': Text)
    ensures Last(ms + [Keyed(k, v)], k') == if k' == k then Some(v) else Last(ms, k')
    ensures Last([], k') == None
  {
    var all := ms + [Keyed(k, v)];
    assert all[..|all| - 1] == ms;
  }

  function Operation(op: Bytes): seq<Keyed<Value>> { [Keyed(A("operation"), Str(op))] }

  lemma OperationLast(op: Bytes, k: Text)
    ensures Last(Operation(op), k) == if k == A("operation") then Some(Str(op)) else None
  {
    LastWins([], A("operation"), Str(op), k);
    assert [] + Operation(op) == Operation(op);
  }

  lemma MoreKeys()
    ensures |A("job_id")| == 6 && |A("key_size")| == 8 && |A("user_data")| == 9 && A("user_data")[0] == 0x75
    ensures A("operation")[0] == 0x6F && |A("operation")| == 9 && |A("session_id")| == 10
    ensures |A("health_check")| == 12 && |A("get_enclave_info")| == 16 && |A("encrypted_data")| == 14
  {
  }

  /** A key request with its operation, job and key size, if given; 2048 otherwise. */
  function KeyRequestJson(op: Bytes, job: Option<Text>, size: Option<int>): Value {
    var ms := Operation(op) + Member(A("job_id"), job);
    Obj(if size.Some? then ms + [Keyed(A("key_size"), Int(size.value))] else ms)
  }

  function SizeOf(size: Option<int>): nat {
    if size.None? then 2048 else if size.value < 0 then 0 else size.value
  }

  lemma KeyRequestMembers(op: Bytes, job: Option<Text>, size: Option<int>)
    ensures var ms := KeyRequestJson(op, job, size).members;
      && Last(ms, A("operation")) == Some(Str(op)) && Last(ms, A("job_id")) == StrOf(job)
      && Last(ms, A("key_size")) == if size.None? then None else Some(Int(size.value))
  {
    hide A, Last, Member, Operation;
    MoreKeys();
    var ms := Operation(op) + Member(A("job_id"), job);
    forall k: Text ensures Last(Operation(op), k) == if k == A("operation") then Some(Str(op)) else None {
      OperationLast(op, k);
    }
    LastSnoc(Operation(op), A("job_id"), job);
    if size.Some? {
      forall k: Text
        ensures Last(ms + [Keyed(A("key_size"), Int(size.value))], k) ==
                if k == A("key_size") then Some(Int(size.value)) else Last(ms, k)
      {
        LastWins(ms, A("key_size"), Int(size.value), k);
      }
    }
  }

  /** Which text asks for a key, and for a key attested to a proxy. */
  lemma KeyRequestsRead(job: Option<Text>, size: Option<int>)
    ensures ReadRequest(KeyRequestJson(A("generate_rsa_keypair"), job, size)) == Some(Generate(job, SizeOf(size)))
    ensures ReadRequest(KeyRequestJson(A("get_attestation_for_proxy"), job, size)) == Some(Proxy(job, SizeOf(size)))
  {
    KeysApart();
    hide A, Last, Member, KeyRequestJson;
    KeyRequestIs(A("generate_rsa_keypair"), job, size);
    KeyRequestIs(A("get_attestation_for_proxy"), job, size);
    KeyRequestMembers(A("generate_rsa_keypair"), job, size);
    KeyRequestMembers(A("get_attestation_for_proxy"), job, size);
  }

  lemma KeyRequestIs(op: Bytes, job: Option<Text>, size: Option<int>)
    ensures KeyRequestJson(op, job, size).Obj?
  {
  }

  /** A session attestation, with whatever is brought as user data. */
  function AttestationJson(sid: Option<Text>, userData: Option<Value>): Value {
    var ms := Operation(A("get_attestation")) + Member(A("session_id"), sid);
    Obj(if userData.Some? then ms + [Keyed(A("user_data"), userData.value)] else ms)
  }

  /** Any `user_data` at all is noticed, null included. */
  lemma AttestationReads(sid: Option<Text>, userData: Option<Value>)
    ensures ReadRequest(AttestationJson(sid, userData)) == Some(Attestation(sid, userData.Some?))
  {
    hide A, Last, Member, Operation;
    KeysApart();
    MoreKeys();
    var op := A("get_attestation");
    var ms := Operation(op) + Member(A("session_id"), sid);
    forall k: Text ensures Last(Operation(op), k) == if k == A("operation") then Some(Str(op)) else None {
      OperationLast(op, k);
    }
    LastSnoc(Operation(op), A("session_id"), sid);
    if userData.Some? {
      forall k: Text
        ensures Last(ms + [Keyed(A("user_data"), userData.value)], k) ==
                if k == A("user_data") then Some(userData.value) else Last(ms, k)
      {
        LastWins(ms, A("user_data"), userData.value, k);
      }
    }
  }

  /** The harmless operations; everything else is an error: another operation, none, and what is no dictionary. */
  lemma HarmlessReads(op: Bytes, v: Value)
    ensures ReadRequest(Obj(Operation(A("health_check")))) == Some(Harmless(true))
    ensures ReadRequest(Obj(Operation(A("get_enclave_info")))) == Some(Harmless(true))
    ensures op != A("health_check") && op != A("get_enclave_info") && op != A("generate_rsa_keypair")
      && op != A("get_attestation_for_proxy") && op != A("get_attestation") && op != A("execute_script_rsa_hybrid")
      ==> ReadRequest(Obj(Operation(op))) == Some(Harmless(false))
    ensures ReadRequest(Obj([])) == Some(Harmless(false))
    ensures !v.Obj? ==> ReadRequest(v) == Some(Harmless(false))
  {
    hide A, Last, Operation;
    KeysApart();
    MoreKeys();
    OperationLast(A("health_check"), A("operation"));
    OperationLast(A("get_enclave_info"), A("operation"));
    OperationLast(op, A("operation"));
    LastWins([], [], Null, A("operation"));
  }
}
