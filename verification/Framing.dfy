/** Receiving a request over a byte stream: a length prefix, or a raw JSON object. */
module Framing {
  import opened Basics
  import Json
  import JsonPrefix
  import JsonRoundTrip
  import BigEndian
  import Utf8

  const HEADER_SIZE := 4
  /** The default of `MAX_REQUEST_SIZE`. */
  const DEFAULT_MAX := 200 * 1024 * 1024

  /** Why nothing is returned: the peer closed early, or the error sent back to it. */
  datatype Why = Empty | InvalidLength | Incomplete | TimedOut | ServerError

  /** What `_recv_request` returns; the flag is `use_framing`. */
  datatype Received = Request(data: Text, framed: bool) | Rejected(framed: bool, why: Why)

  /** The other end of the socket: what it sends, how the network cuts it (`cut(pos)` bytes are there when the reader
      stands at `pos`), and whether it then closes or keeps the connection open. */
  datatype Peer = Peer(sent: Bytes, cut: nat -> nat, closes: bool)

  /** How much `recv(n)` returns at `pos`; any size from 1 to `n` is possible. */
  function Piece(peer: Peer, pos: nat, n: nat): (k: nat)
    requires pos < |peer.sent| && n > 0
    ensures 1 <= k <= n && pos + k <= |peer.sent|
    ensures 1 <= peer.cut(pos) <= n && pos + peer.cut(pos) <= |peer.sent| ==> k == peer.cut(pos)
  {
    var most := Min(n, |peer.sent| - pos);
    if peer.cut(pos) == 0 then 1 else Min(peer.cut(pos), most)
  }

  /** `sock.recv(n)`: a piece of what is there; at the end nothing if the peer closed, else None, a timeout. */
  method Recv(peer: Peer, pos: nat, n: nat) returns (chunk: Option<Bytes>)
    requires pos <= |peer.sent| && n > 0
    ensures pos < |peer.sent| ==> chunk == Some(peer.sent[pos..pos + Piece(peer, pos, n)])
    ensures pos == |peer.sent| ==> chunk == if peer.closes then Some([]) else None
  {
    if pos < |peer.sent| {
      chunk := Some(peer.sent[pos..pos + Piece(peer, pos, n)]);
    } else {
      chunk := if peer.closes then Some([]) else None;
    }
  }

  datatype Exact = Whole(bytes: Bytes) | Closed | NoMore

  /** However the stream is cut, `n` bytes come back whole or not at all. */
  method RecvExact(peer: Peer, pos: nat, n: nat) returns (r: Exact, end: nat)
    requires pos <= |peer.sent|
    ensures r ==
      if pos + n <= |peer.sent| then Whole(peer.sent[pos..pos + n]) else if peer.closes then Closed else NoMore
    ensures end == Min(pos + n, |peer.sent|)
  {
    var buf: Bytes := [];
    end := pos;
    while |buf| < n
      invariant |buf| <= n && end == pos + |buf| <= |peer.sent| && buf == peer.sent[pos..end]
      decreases n - |buf|
    {
      var chunk := Recv(peer, end, n - |buf|);
      if chunk.None? { return NoMore, end; }
      if chunk.value == [] { return Closed, end; }
      buf := buf + chunk.value;
      end := end + |chunk.value|;
    }
    r := Whole(buf);
  }

  // ---- complete documents ----

  predicate Complete(b: Bytes) {
    Utf8.Decode(b).Some? && Json.Loads(Utf8.Decode(b).value).Some?
  }

  /** A JSON object in UTF-8 (section 4 of RFC 8259), possibly with whitespace after it. */
  predicate ObjectText(b: Bytes) { b != [] && b[0] == Json.LBRACE && Complete(b) }

  /** The reader looks at the text so far only when a piece ends in a brace. */
  predicate Stop(b: Bytes, n: nat)
    requires 0 < n <= |b|
  {
    b[n - 1] == Json.RBRACE && Complete(b[..n])
  }

  lemma FirstCharacter(b: Bytes)
    requires b != [] && b[0] < 0x80 && Utf8.Decode(b).Some?
    ensures Utf8.Decode(b).value != [] && Utf8.Decode(b).value[0] == b[0]
  {
  }

  /** Bytes that continue a complete object into another document are whitespace, and the value stays. */
  lemma ContinuationIsWhitespace(p: Bytes, x: Bytes)
    requires ObjectText(p) && Complete(p + x)
    ensures forall i :: 0 <= i < |x| ==> Json.IsWs(x[i])
    ensures Json.Loads(Utf8.Decode(p + x).value) == Json.Loads(Utf8.Decode(p).value)
  {
    hide Utf8.Decode, Json.Loads;
    Utf8.DecodeConcat(p, x);
    FirstCharacter(p);
    var q := Utf8.Decode(x).value;
    JsonPrefix.ObjectIsPrefixFree(Utf8.Decode(p).value, q);
    Utf8.DecodeAscii(x);
  }

  /** An object text is an object that ends in its brace, followed by whitespace; the object alone reads the same. */
  lemma ObjectSplits(b: Bytes)
    requires ObjectText(b)
    ensures var v := Json.ParseValue(Utf8.Decode(b).value);
      && v.Ok? && |v.rest| < |b|
      && var n := |b| - |v.rest|;
      && Stop(b, n) && Json.Loads(Utf8.Decode(b[..n]).value) == Json.Loads(Utf8.Decode(b).value)
      && forall i :: n <= i < |b| ==> Json.IsWs(b[i])
  {
    hide Utf8.Decode, Json.Loads, Json.ParseValue;
    var t := Utf8.Decode(b).value;
    FirstCharacter(b);
    JsonPrefix.ObjectThenWhitespace(t);
    var k := |t| - |Json.ParseValue(t).rest|;
    assert t == t[..k] + t[k..];
    Utf8.AsciiTail(b, t[..k], t[k..]);
    var n := |b| - |t[k..]|;
    forall i | n <= i < |b| ensures Json.IsWs(b[i]) { assert b[i] == b[n..][i - n] == t[k..][i - n]; }
    LastCharacter(b[..n], t[..k]);
    assert n > 0 && b[..n][n - 1] == b[n - 1];
  }

  lemma LastCharacter(b: Bytes, t: Text)
    requires Utf8.Decode(b) == Some(t) && t != [] && t[|t| - 1] < 0x80
    ensures b != [] && b[|b| - 1] == t[|t| - 1]
  {
    hide Utf8.Decode;
    var k := |t| - 1;
    assert t == t[..k] + [t[k]];
    Utf8.AsciiTail(b, t[..k], [t[k]]);
    assert b[|b| - 1..][0] == t[k];
  }

  /** Where the object of an object text ends: at the end of what the JSON decoder consumes. */
  function ObjectEnd(b: Bytes): (n: nat)
    requires ObjectText(b)
    ensures 0 < n <= |b|
  {
    ObjectSplits(b);
    |b| - |Json.ParseValue(Utf8.Decode(b).value).rest|
  }

  /** The end of the object is the only place where the reader can stop. */
  lemma StopIsObjectEnd(b: Bytes, p: nat)
    requires ObjectText(b) && 0 < p <= |b|
    ensures Stop(b, p) <==> p == ObjectEnd(b)
  {
    hide Utf8.Decode, Json.Loads, Json.ParseValue;
    ObjectSplits(b);
    var n := ObjectEnd(b);
    if Stop(b, p) && p < n {
      assert b[..n] == b[..p] + b[p..n];
      assert b[p..n][n - 1 - p] == b[n - 1];
      ContinuationIsWhitespace(b[..p], b[p..n]);
    }
  }

  /** No proper front part of an object text that ends in its brace is a document. */
  lemma NoEarlyEnd(m: Bytes, k: nat)
    requires ObjectText(m) && m[|m| - 1] == Json.RBRACE && 0 < k < |m|
    ensures !Complete(m[..k])
  {
    hide Utf8.Decode, Json.Loads;
    var p, x := m[..k], m[k..];
    assert m == p + x && x[|x| - 1] == m[|m| - 1];
    if Complete(p) { ContinuationIsWhitespace(p, x); }
  }

  // ---- the raw path ----

  /** Where the raw loop ends, and whether it asked for more when all that was sent had been read. */
  datatype Ending = Ending(end: nat, waited: bool)

  function RawEnd(peer: Peer, max: nat, pos: nat): (e: Ending)
    requires pos <= |peer.sent|
    ensures pos <= e.end <= |peer.sent| && (e.end <= max || e.end == pos)
    ensures e.waited ==> e.end == |peer.sent| < max
    ensures e.end < |peer.sent| && e.end < max ==> Complete(peer.sent[..e.end])
    decreases |peer.sent| - pos
  {
    if pos >= max then Ending(pos, false)
    else if pos == |peer.sent| then Ending(pos, true)
    else
      var next := pos + Piece(peer, pos, Min(65536, max - pos));
      if Stop(peer.sent, next) then Ending(next, false) else RawEnd(peer, max, next)
  }

  /** What the raw path returns, and how much it read. */
  function RawResult(peer: Peer, max: nat): (Received, nat)
    requires |peer.sent| >= HEADER_SIZE
  {
    var e := RawEnd(peer, max, HEADER_SIZE);
    if e.waited && !peer.closes then (Rejected(false, TimedOut), e.end)
    else match Utf8.Decode(peer.sent[..e.end])
      case None => (Rejected(false, ServerError), e.end)
      case Some(t) => (Request(t, false), e.end)
  }

  lemma RawStep(peer: Peer, max: nat, pos: nat)
    requires pos <= |peer.sent|
    ensures pos >= max ==> RawEnd(peer, max, pos) == Ending(pos, false)
    ensures pos < max && pos == |peer.sent| ==> RawEnd(peer, max, pos) == Ending(pos, true)
    ensures pos < max && pos < |peer.sent| ==>
      var next := pos + Piece(peer, pos, Min(65536, max - pos));
      RawEnd(peer, max, pos) == if Stop(peer.sent, next) then Ending(next, false) else RawEnd(peer, max, next)
  {
    hide Complete, Stop, Piece;
  }

  /** `_recv_raw_json` after the first four bytes. */
  method RecvRawJson(peer: Peer, max: nat) returns (r: Received, end: nat)
    requires |peer.sent| >= HEADER_SIZE
    ensures (r, end) == RawResult(peer, max)
  {
    hide Utf8.Decode, Json.Loads, RawEnd, Piece;
    var chunks := peer.sent[..HEADER_SIZE];
    end := HEADER_SIZE;
    while end < max
      invariant HEADER_SIZE <= end <= |peer.sent| && chunks == peer.sent[..end]
      invariant RawEnd(peer, max, HEADER_SIZE) == RawEnd(peer, max, end)
      decreases max - end
    {
      RawStep(peer, max, end);
      var chunk := Recv(peer, end, Min(65536, max - end));
      if chunk.None? { return Rejected(false, TimedOut), end; }
      if chunk.value == [] { break; }
      chunks := chunks + chunk.value;
      end := end + |chunk.value|;
      assert chunks == peer.sent[..end];
      if chunk.value[|chunk.value| - 1] == Json.RBRACE && Complete(chunks) {
        return Request(Utf8.Decode(chunks).value, false), end;
      }
    }
    RawStep(peer, max, end);
    var data := Utf8.Decode(chunks);
    r := if data.None? then Rejected(false, ServerError) else Request(data.value, false);
  }

  // ---- what the cutting can change ----

  /** From any position the loop stops at the end of the object, if a piece ends there, or else at the end of the text.
      */
  lemma {:induction false} RawEnds(peer: Peer, max: nat, pos: nat)
    requires ObjectText(peer.sent) && 0 < pos <= |peer.sent| <= max
    ensures var n, all := ObjectEnd(peer.sent), |peer.sent|;
      var e := RawEnd(peer, max, pos);
      && (n <= pos ==> e == Ending(all, all < max))
      && (pos < n ==> e == Ending(n, false) || (n < all && e == Ending(all, all < max)))
    decreases |peer.sent| - pos
  {
    hide Complete, ObjectEnd, ObjectText;
    if pos < |peer.sent| {
      var next := pos + Piece(peer, pos, Min(65536, max - pos));
      StopIsObjectEnd(peer.sent, next);
      if !Stop(peer.sent, next) { RawEnds(peer, max, next); }
    }
  }

  /** The raw path on an object text, however it is cut: what is read is the whole text or the object alone, the value
      is the same, only whitespace can stay unread; and exactly when the loop asks for more. */
  lemma RawReceive(peer: Peer, max: nat)
    requires ObjectText(peer.sent) && HEADER_SIZE <= |peer.sent| <= max
    ensures var n, all := ObjectEnd(peer.sent), |peer.sent|;
      var e := RawEnd(peer, max, HEADER_SIZE);
      && (e.end == all || (e.end == n && n > HEADER_SIZE))
      && Utf8.Decode(peer.sent[..e.end]).Some?
      && Json.Loads(Utf8.Decode(peer.sent[..e.end]).value) == Json.Loads(Utf8.Decode(peer.sent).value)
      && (forall i :: e.end <= i < all ==> Json.IsWs(peer.sent[i]))
      && (e.waited <==> all < max && e.end == all && !(n == all > HEADER_SIZE))
  {
    hide Utf8.Decode, Json.Loads, Json.ParseValue, RawEnd;
    RawEnds(peer, max, HEADER_SIZE);
    ObjectSplits(peer.sent);
    assert peer.sent[..|peer.sent|] == peer.sent;
  }

  /** Byte by byte, the loop stops at the end of the object. */
  lemma {:induction false} OneByOne(peer: Peer, max: nat, pos: nat)
    requires ObjectText(peer.sent) && 0 < pos < ObjectEnd(peer.sent) && |peer.sent| <= max
    requires forall p :: peer.cut(p) == 1
    ensures RawEnd(peer, max, pos) == Ending(ObjectEnd(peer.sent), false)
    decreases |peer.sent| - pos
  {
    hide Complete, ObjectEnd, ObjectText;
    StopIsObjectEnd(peer.sent, pos + 1);
    if pos + 1 < ObjectEnd(peer.sent) { OneByOne(peer, max, pos + 1); }
  }

  /** If the last byte of the object and the first after it come together, the loop reads on. */
  lemma {:induction false} OverTheEnd(peer: Peer, max: nat, pos: nat)
    requires ObjectText(peer.sent) && 0 < pos < ObjectEnd(peer.sent) < |peer.sent| <= max
    requires forall p :: peer.cut(p) == if p == ObjectEnd(peer.sent) - 1 then 2 else 1
    ensures RawEnd(peer, max, pos) == Ending(|peer.sent|, |peer.sent| < max)
    decreases |peer.sent| - pos
  {
    hide Complete, ObjectEnd, ObjectText;
    var next := pos + Piece(peer, pos, Min(65536, max - pos));
    StopIsObjectEnd(peer.sent, next);
    if next < ObjectEnd(peer.sent) { OverTheEnd(peer, max, next); } else { RawEnds(peer, max, next); }
  }

  /** All cuttings return exactly the text sent if and only if it ends in its brace or its object lies within the first
      four bytes. */
  lemma SameForEveryCutting(s: Bytes, max: nat)
    requires ObjectText(s) && HEADER_SIZE <= |s| <= max
    ensures (forall peer: Peer :: peer.sent == s ==> RawEnd(peer, max, HEADER_SIZE).end == |s|)
            <==> s[|s| - 1] == Json.RBRACE || ObjectEnd(s) <= HEADER_SIZE
  {
    hide Complete, ObjectEnd, ObjectText, RawEnd;
    BraceIsEnd(s);
    var n := ObjectEnd(s);
    forall peer: Peer | peer.sent == s && (n == |s| || n <= HEADER_SIZE)
      ensures RawEnd(peer, max, HEADER_SIZE).end == |s|
    {
      RawEnds(peer, max, HEADER_SIZE);
    }
    if n != |s| && n > HEADER_SIZE {
      var peer := Peer(s, (p: nat) => 1, true);
      OneByOne(peer, max, HEADER_SIZE);
      assert peer.sent == s && RawEnd(peer, max, HEADER_SIZE).end != |s|;
    }
  }

  /** The text ends in a brace exactly when nothing follows its object. */
  lemma BraceIsEnd(s: Bytes)
    requires ObjectText(s)
    ensures s[|s| - 1] == Json.RBRACE <==> ObjectEnd(s) == |s|
  {
    hide Utf8.Decode, Json.Loads, Json.ParseValue;
    ObjectSplits(s);
  }

  /** No cutting makes the reader ask for more than was sent, so that a peer that keeps the connection open is
      answered, if and only if the text ends in its brace and has more than four bytes, or fills the limit. */
  lemma NeverWaits(s: Bytes, max: nat)
    requires ObjectText(s) && HEADER_SIZE <= |s| <= max
    ensures (forall peer: Peer :: peer.sent == s ==> !RawEnd(peer, max, HEADER_SIZE).waited)
            <==> (s[|s| - 1] == Json.RBRACE && |s| > HEADER_SIZE) || |s| == max
  {
    hide Complete, ObjectEnd, ObjectText, RawEnd;
    BraceIsEnd(s);
    var n := ObjectEnd(s);
    forall peer: Peer | peer.sent == s && (n == |s| > HEADER_SIZE || |s| == max)
      ensures !RawEnd(peer, max, HEADER_SIZE).waited
    {
      RawEnds(peer, max, HEADER_SIZE);
    }
    if !(n == |s| > HEADER_SIZE) && |s| != max {
      var peer := Peer(s, (p: nat) => if p == n - 1 then 2 else 1, false);
      if n <= HEADER_SIZE { RawEnds(peer, max, HEADER_SIZE); } else { OverTheEnd(peer, max, HEADER_SIZE); }
      assert peer.sent == s && RawEnd(peer, max, HEADER_SIZE).waited;
    }
  }

  // ---- both paths ----

  /** The reading of a stream that does not open with a brace, and how much of it is consumed. */
  function FramedResult(sent: Bytes, closes: bool, max: nat): (Received, nat) {
    if |sent| < HEADER_SIZE then (Rejected(false, if closes then Empty else TimedOut), |sent|)
    else
      var n := BigEndian.Decode(sent[..HEADER_SIZE]);
      if n == 0 || n > max then (Rejected(true, InvalidLength), HEADER_SIZE)
      else if HEADER_SIZE + n > |sent| then
        (if closes then Rejected(true, Incomplete) else Rejected(false, TimedOut), |sent|)
      else match Utf8.Decode(sent[HEADER_SIZE..HEADER_SIZE + n])
        case None => (Rejected(false, ServerError), HEADER_SIZE + n)
        case Some(t) => (Request(t, true), HEADER_SIZE + n)
  }

  /** Framed input is read as its frame says, whatever the cutting. A raw object text is read with its value whatever
      the cutting, by a peer that closes or that ends it in its brace, and then exactly. */
  method RecvRequest(peer: Peer, max: nat) returns (r: Received, used: nat)
    ensures (r, used) ==
      if |peer.sent| < HEADER_SIZE || peer.sent[0] != Json.LBRACE then FramedResult(peer.sent, peer.closes, max)
      else RawResult(peer, max)
    ensures ObjectText(peer.sent) && HEADER_SIZE <= |peer.sent| <= max ==>
      var s := peer.sent;
      var braced := s[|s| - 1] == Json.RBRACE && |s| > HEADER_SIZE;
      && (peer.closes || braced || |s| == max ==>
          && r.Request? && !r.framed && Json.Loads(r.data) == Json.Loads(Utf8.Decode(s).value)
          && used <= |s| && forall i :: used <= i < |s| ==> Json.IsWs(s[i]))
      && (braced ==> r == Request(Utf8.Decode(s).value, false) && used == |s|)
  {
    hide Utf8.Decode, Json.Loads, BigEndian.Decode, Json.ParseValue, RawEnd;
    var first, end := RecvExact(peer, 0, HEADER_SIZE);
    if !first.Whole? { return Rejected(false, if first.Closed? then Empty else TimedOut), end; }
    if first.bytes[0] == Json.LBRACE {
      r, used := RecvRawJson(peer, max);
      if ObjectText(peer.sent) && |peer.sent| <= max {
        RawReceive(peer, max);
        BraceIsEnd(peer.sent);
        assert peer.sent[..|peer.sent|] == peer.sent;
      }
      return;
    }
    var n := BigEndian.Decode(first.bytes);
    if n == 0 || n > max { return Rejected(true, InvalidLength), end; }
    var body, bodyEnd := RecvExact(peer, end, n);
    if !body.Whole? { return if body.Closed? then Rejected(true, Incomplete) else Rejected(false, TimedOut), bodyEnd; }
    var text := Utf8.Decode(body.bytes);
    if text.None? { return Rejected(false, ServerError), bodyEnd; }
    return Request(text.value, true), bodyEnd;
  }

  lemma WhitespaceCompletes(m: Bytes, w: Bytes)
    requires ObjectText(m) && forall i :: 0 <= i < |w| ==> Json.IsWs(w[i])
    ensures ObjectText(m + w)
  {
    hide Utf8.Decode, Json.Loads;
    FirstCharacter(m);
    Utf8.DecodeConcat(m, w);
    Utf8.EncodeAscii(w);
    JsonPrefix.WhitespaceAfterObject(Utf8.Decode(m).value, w);
    assert (m + w)[0] == m[0];
  }

  /** The family on which the cutting shows: after an object of more than four bytes, whitespace. Byte by byte the
      object alone is returned; with the brace and the next byte in one piece all of it is, if the peer closes, and
      nothing if it waits for the answer. */
  lemma TrailingWhitespaceShows(m: Bytes, w: Bytes, max: nat) returns (a: Peer, b: Peer, c: Peer)
    requires ObjectText(m) && m[|m| - 1] == Json.RBRACE && |m| > HEADER_SIZE
    requires w != [] && (forall i :: 0 <= i < |w| ==> Json.IsWs(w[i])) && |m + w| < max
    ensures ObjectText(m + w)
    ensures a.sent == b.sent == c.sent == m + w && a.closes && b.closes && !c.closes
    ensures RawResult(a, max) == (Request(Utf8.Decode(m).value, false), |m|)
    ensures RawResult(b, max) == (Request(Utf8.Decode(m + w).value, false), |m + w|)
    ensures RawResult(c, max) == (Rejected(false, TimedOut), |m + w|)
  {
    hide Utf8.Decode, Json.Loads, Json.ParseValue, RawEnd;
    var s := m + w;
    WhitespaceCompletes(m, w);
    assert s[..|m|] == m && s[..|s|] == s && s[|m| - 1] == m[|m| - 1];
    StopIsObjectEnd(s, |m|);
    a := Peer(s, (p: nat) => 1, true);
    var jump: nat -> nat := (p: nat) => if p == |m| - 1 then 2 else 1;
    b, c := Peer(s, jump, true), Peer(s, jump, false);
    OneByOne(a, max, HEADER_SIZE);
    OverTheEnd(b, max, HEADER_SIZE);
    OverTheEnd(c, max, HEADER_SIZE);
  }

  /** The smallest everyday case, an object and a newline: `{"a":1}` is an object text of seven bytes, so
      TrailingWhitespaceShows applies. */
  lemma NewlineShows(max: nat) returns (a: Peer, b: Peer, c: Peer)
    requires max > 8
    ensures a.sent == b.sent == c.sent == [0x7B, 0x22, 0x61, 0x22, 0x3A, 0x31, 0x7D, 0x0A]
    ensures RawResult(a, max).0.Request? && RawResult(a, max).1 == 7
    ensures RawResult(b, max).0.Request? && RawResult(b, max).1 == 8
    ensures RawResult(c, max).0 == Rejected(false, TimedOut)
  {
    hide Utf8.Decode, Json.Loads, Json.ParseValue, RawEnd, Json.Dumps, RawResult, ObjectText;
    var m: Bytes := [0x7B, 0x22, 0x61, 0x22, 0x3A, 0x31, 0x7D];
    SmallObject();
    a, b, c := TrailingWhitespaceShows(m, [0x0A], max);
  }

  lemma SmallObject()
    ensures ObjectText([0x7B, 0x22, 0x61, 0x22, 0x3A, 0x31, 0x7D])
  {
    hide Utf8.Decode, Json.Loads, Json.ParseValue;
    var b: Bytes := [0x7B, 0x22, 0x61, 0x22, 0x3A, 0x31, 0x7D];
    var ms := [Keyed([0x61], Json.Int(1))];
    var v := Json.Obj(ms);
    assert [0x61][1..] == [];
    assert Json.EscapeAll([0x61]) == Json.Escape(0x61) + Json.EscapeAll([]) == [0x61];
    assert Json.Quoted([0x61]) == [0x22, 0x61, 0x22];
    assert Json.PrintInt(1) == [0x31];
    assert Json.DumpsMember(ms[0], Json.Compact) == [0x22, 0x61, 0x22] + ([0x3A] + [0x31]);
    assert Json.Dumps(v, Json.Compact) == b;
    JsonRoundTrip.LoadsDumps(v, Json.Compact);
    Utf8.EncodeAscii(b);
  }

  /** `struct.pack('!I', len(payload)) + payload`; None is struct.error. */
  function Frame(payload: Bytes): Option<Bytes> {
    if |payload| < 0x1_0000_0000 then Some(BigEndian.Encode(|payload|, HEADER_SIZE) + payload) else None
  }

  lemma HeaderReads(n: nat)
    requires n < 0x1_0000_0000
    ensures BigEndian.Decode(BigEndian.Encode(n, 4)) == n
    ensures BigEndian.Encode(n, 4)[0] == Json.LBRACE <==> 0x7B00_0000 <= n < 0x7C00_0000
  {
    hide BigEndian.Encode, BigEndian.Decode, BigEndian.Pow256;
    BigEndian.Widths();
    BigEndian.RoundTrip(n, 4);
    BigEndian.FourBytes(BigEndian.Encode(n, 4));
  }

  lemma FrameReads(h: Bytes, payload: Bytes, after: Bytes, closes: bool, max: nat)
    requires |h| == HEADER_SIZE && BigEndian.Decode(h) == |payload| && 1 <= |payload| <= max
    ensures FramedResult(h + payload + after, closes, max) ==
      (match Utf8.Decode(payload) case None => Rejected(false, ServerError) case Some(t) => Request(t, true),
       HEADER_SIZE + |payload|)
  {
    hide Utf8.Decode, BigEndian.Decode;
    var stream := h + payload + after;
    assert stream[..4] == h;
    assert stream[4..4 + |payload|] == payload;
  }

  /** A frame is taken for raw JSON exactly when its length has 0x7B as top byte; otherwise receiving undoes
      sending, and the bytes after the frame stay unread. */
  lemma FrameRoundTrip(payload: Bytes, after: Bytes, closes: bool, max: nat)
    requires 1 <= |payload| <= max && |payload| < 0x1_0000_0000
    ensures var stream := Frame(payload).value + after;
      && (stream[0] == Json.LBRACE <==> 0x7B00_0000 <= |payload| < 0x7C00_0000)
      && FramedResult(stream, closes, max) ==
         (match Utf8.Decode(payload) case None => Rejected(false, ServerError) case Some(t) => Request(t, true),
          4 + |payload|)
  {
    hide Utf8.Decode, BigEndian.Encode, BigEndian.Decode, FramedResult;
    var h := BigEndian.Encode(|payload|, 4);
    var stream := Frame(payload).value + after;
    HeaderReads(|payload|);
    FrameReads(h, payload, after, closes, max);
    assert stream == h + payload + after && stream[0] == h[0];
  }

  /** What a reader of frames refuses: fewer than four bytes, a length of zero or above the limit, a body that stops
      early, and a body that is not UTF-8. */
  lemma FrameErrors(n: nat, body: Bytes, closes: bool, max: nat)
    requires n < 0x1_0000_0000
    ensures |body| < 4 ==>
      FramedResult(body, closes, max) == (Rejected(false, if closes then Empty else TimedOut), |body|)
    ensures var stream := BigEndian.Encode(n, 4) + body;
      && (n == 0 || n > max ==> FramedResult(stream, closes, max) == (Rejected(true, InvalidLength), 4))
      && (0 < n <= max && |body| < n ==>
           FramedResult(stream, closes, max) ==
           (if closes then Rejected(true, Incomplete) else Rejected(false, TimedOut), 4 + |body|))
      && (0 < n <= max && |body| >= n && Utf8.Decode(body[..n]).None? ==>
           FramedResult(stream, closes, max) == (Rejected(false, ServerError), 4 + n))
  {
    hide Utf8.Decode, BigEndian.Encode, BigEndian.Decode;
    HeaderReads(n);
    var h := BigEndian.Encode(n, 4);
    var stream := h + body;
    assert stream[..4] == h;
    if n <= |body| { assert stream[4..4 + n] == body[..n]; }
  }

  /** Under the default limit no accepted frame looks like raw JSON, so the receiver cannot mistake one. */
  lemma DefaultLimitIsUnambiguous(payload: Bytes, after: Bytes, closes: bool)
    requires 1 <= |payload| <= DEFAULT_MAX
    ensures (Frame(payload).value + after)[0] != Json.LBRACE
    ensures FramedResult(Frame(payload).value + after, closes, DEFAULT_MAX).1 == 4 + |payload|
  {
    FrameRoundTrip(payload, after, closes, DEFAULT_MAX);
  }

  /** An object text of more than four bytes that ends in its brace is delivered whole by the raw path under every
      cutting, also to a peer that keeps the connection open. */
  lemma RawDelivers(m: Bytes, peer: Peer, max: nat)
    requires ObjectText(m) && m[|m| - 1] == Json.RBRACE && HEADER_SIZE < |m| <= max && peer.sent == m
    ensures RawResult(peer, max) == (Request(Utf8.Decode(m).value, false), |m|)
  {
    hide Utf8.Decode, Json.Loads, Json.ParseValue, RawEnd;
    RawReceive(peer, max);
    BraceIsEnd(m);
    assert m[..|m|] == m;
  }

  /** A response in its frame reaches a reader of frames as the same JSON value. */
  lemma ResponseSurvives(v: Json.Value, closes: bool, max: nat)
    requires Json.Plain(v) && JsonRoundTrip.Clean(v)
    requires |Json.Dumps(v, Json.Spaced)| <= max && |Json.Dumps(v, Json.Spaced)| < 0x1_0000_0000
    ensures var r := FramedResult(Frame(Json.Dumps(v, Json.Spaced)).value, closes, max).0;
      r.Request? && r.framed && Json.Loads(r.data) == Some(v)
  {
    hide Utf8.Decode, Json.Loads, Json.Dumps;
    var payload := Json.Dumps(v, Json.Spaced);
    JsonRoundTrip.RoundTripExactly(v, Json.Spaced);
    JsonRoundTrip.DumpsPrintable(v, Json.Spaced);
    Utf8.EncodeAscii(payload);
    FrameRoundTrip(payload, [], closes, max);
    assert Frame(payload).value + [] == Frame(payload).value;
  }
}
