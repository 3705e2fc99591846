/** The incremental SOCKS5 handshake. */
module Socks5 {
  // Sections 3, 4 and 6 of RFC 1928: no authentication, CONNECT only, decided chunk by chunk, with the
  // bytes that follow the request handed back.

  import opened Basics

  datatype Host = V4(address: seq<byte>) | Name(text: seq<byte>) | V6(groups: seq<int>)

  datatype Decision =
    | NeedMore
    | Failed(reply: seq<byte>)
    | Connect(host: Host, port: int, leftover: seq<byte>)

  function Length(b: byte): nat {
    b as int
  }

  function ReadU16(buf: seq<byte>, at: nat): int
    requires at + 1 < |buf|
  {
    Length(buf[at]) * 256 + Length(buf[at + 1])
  }

  function Refusal(code: byte): seq<byte> {
    [5, code, 0, 1, 0, 0, 0, 0, 0, 0]
  }

  const NO_METHOD_REPLY: seq<byte> := [5, 255]
  const NO_AUTH_REPLY: seq<byte> := [5, 0]

  // ---- One look at the bytes of a stage ----

  datatype GreetingResult = GreetingIncomplete | GreetingBad(reply: seq<byte>) | GreetingDone(length: nat)

  function ReadGreeting(buf: seq<byte>): (r: GreetingResult)
    ensures r.GreetingDone? ==> 2 <= r.length <= |buf|
  {
    if buf == [] || buf[0] != 5 then GreetingBad([])
    else if |buf| < 2 || |buf| < 2 + Length(buf[1]) then GreetingIncomplete
    else if 0 !in buf[2..2 + Length(buf[1])] then GreetingBad(NO_METHOD_REPLY)
    else GreetingDone(2 + Length(buf[1]))
  }

  function ReadV4(buf: seq<byte>): Decision {
    if |buf| < 10 then NeedMore else Connect(V4(buf[4..8]), ReadU16(buf, 8), buf[10..])
  }

  function ReadName(buf: seq<byte>): Decision {
    if |buf| < 5 || |buf| < 5 + Length(buf[4]) + 2 then NeedMore
    else
      var end := 5 + Length(buf[4]);
      Connect(Name(buf[5..end]), ReadU16(buf, end), buf[end + 2..])
  }

  function V6Groups(buf: seq<byte>): (groups: seq<int>)
    requires |buf| >= 22
    ensures |groups| == 8 && forall i :: 0 <= i < 8 ==> 0 <= groups[i] < 65536
  {
    seq(8, i requires 0 <= i < 8 => ReadU16(buf, 4 + 2 * i))
  }

  function ReadV6(buf: seq<byte>): Decision {
    if |buf| < 22 then NeedMore else Connect(V6(V6Groups(buf)), ReadU16(buf, 20), buf[22..])
  }

  function ReadRequest(buf: seq<byte>): Decision {
    if buf == [] then NeedMore
    else if buf[0] != 5 then Failed([])
    else if |buf| < 4 then NeedMore
    else if buf[1] != 1 then Failed(Refusal(7))
    else if buf[3] == 1 then ReadV4(buf)
    else if buf[3] == 3 then ReadName(buf)
    else if buf[3] == 4 then ReadV6(buf)
    else Failed(Refusal(8))
  }

  // ---- The handshake as it is run ----

  datatype Stage = Greeting | Request

  /** Stage, kept bytes, decision so far, what was written to the client, and what arrived after the
      handshake had stopped listening. */
  datatype Handshake = Handshake(
    stage: Stage, buffer: seq<byte>, decision: Decision, written: seq<byte>, unread: seq<byte>)

  const FRESH_HANDSHAKE := Handshake(Greeting, [], NeedMore, [], [])

  function AtRequest(h: Handshake): Handshake {
    var d := ReadRequest(h.buffer);
    h.(decision := d, written := h.written + if d.Failed? then d.reply else [])
  }

  /** One chunk; once decided, the handshake no longer listens. */
  function OnChunk(h: Handshake, chunk: seq<byte>): Handshake {
    if !h.decision.NeedMore? then h.(unread := h.unread + chunk)
    else
      var t := h.(buffer := h.buffer + chunk);
      if h.stage.Request? then AtRequest(t)
      else
        match ReadGreeting(t.buffer)
        case GreetingIncomplete => t
        case GreetingBad(reply) => t.(decision := Failed(reply), written := t.written + reply)
        case GreetingDone(n) =>
          AtRequest(t.(stage := Request, buffer := t.buffer[n..], written := t.written + NO_AUTH_REPLY))
  }

  function After(chunks: seq<seq<byte>>, n: nat): Handshake
    requires n <= |chunks|
  {
    if n == 0 then FRESH_HANDSHAKE else OnChunk(After(chunks, n - 1), chunks[n - 1])
  }

  // ---- The decision on a whole stream ----

  /** What a stream decides, and what is written on the way. */
  function Decide(s: seq<byte>): (Decision, seq<byte>) {
    if s == [] then (NeedMore, [])
    else
      match ReadGreeting(s)
      case GreetingIncomplete => (NeedMore, [])
      case GreetingBad(reply) => (Failed(reply), reply)
      case GreetingDone(n) =>
        var d := ReadRequest(s[n..]);
        (d, NO_AUTH_REPLY + if d.Failed? then d.reply else [])
  }

  /** A decision with more bytes behind it. */
  function Extended(d: Decision, more: seq<byte>): Decision {
    if d.Connect? then d.(leftover := d.leftover + more) else d
  }

  lemma GreetingIsMonotone(s: seq<byte>, more: seq<byte>)
    requires s != [] && !ReadGreeting(s).GreetingIncomplete?
    ensures ReadGreeting(s + more) == ReadGreeting(s)
  {
    if s[0] == 5 {
      var end := 2 + Length(s[1]);
      assert (s + more)[2..end] == s[2..end];
    }
  }

  lemma V4IsMonotone(s: seq<byte>, more: seq<byte>)
    requires !ReadV4(s).NeedMore?
    ensures ReadV4(s + more) == Extended(ReadV4(s), more)
  {
    var all := s + more;
    assert all[4..8] == s[4..8] && all[10..] == s[10..] + more;
  }

  lemma NameIsMonotone(s: seq<byte>, more: seq<byte>)
    requires !ReadName(s).NeedMore?
    ensures ReadName(s + more) == Extended(ReadName(s), more)
  {
    var all, end := s + more, 5 + Length(s[4]);
    assert all[5..end] == s[5..end] && all[end + 2..] == s[end + 2..] + more;
  }

  lemma V6IsMonotone(s: seq<byte>, more: seq<byte>)
    requires !ReadV6(s).NeedMore?
    ensures ReadV6(s + more) == Extended(ReadV6(s), more)
  {
    var all := s + more;
    assert all[22..] == s[22..] + more;
    assert V6Groups(all) == V6Groups(s);
  }

  lemma RequestIsMonotone(s: seq<byte>, more: seq<byte>)
    requires !ReadRequest(s).NeedMore?
    ensures ReadRequest(s + more) == Extended(ReadRequest(s), more)
  {
    if |s| >= 4 && s[0] == 5 && s[1] == 1 {
      if s[3] == 1 {
        V4IsMonotone(s, more);
      } else if s[3] == 3 {
        NameIsMonotone(s, more);
      } else if s[3] == 4 {
        V6IsMonotone(s, more);
      }
    }
  }

  /** Prefix-monotone: once a prefix decides, every longer stream decides the same and only hands
      back more bytes. */
  lemma DecisionIsMonotone(s: seq<byte>, more: seq<byte>)
    requires !Decide(s).0.NeedMore?
    ensures Decide(s + more) == (Extended(Decide(s).0, more), Decide(s).1)
  {
    GreetingIsMonotone(s, more);
    if ReadGreeting(s).GreetingDone? {
      var n := ReadGreeting(s).length;
      assert (s + more)[n..] == s[n..] + more;
      RequestIsMonotone(s[n..], more);
    }
  }

  /** The handshake has the decision of the stream so far and has written what that stream calls
      for; what the stream hands back is the leftover followed by the bytes it did not read. */
  ghost predicate FollowsStream(h: Handshake, s: seq<byte>) {
    && Decide(s) == (Extended(h.decision, h.unread), h.written)
    && (h.decision.NeedMore? ==> h.unread == [])
    && (h.decision.NeedMore? && h.stage.Greeting? ==> h.buffer == s && h.written == [])
    && (h.decision.NeedMore? && h.stage.Request? ==>
          s != [] && ReadGreeting(s).GreetingDone? && h.buffer == s[ReadGreeting(s).length..])
  }

  lemma ExtendedByNothing(d: Decision)
    ensures Extended(d, []) == d
  {
    if d.Connect? {
      assert d.leftover + [] == d.leftover;
    }
  }

  lemma ExtendedTwice(d: Decision, a: seq<byte>, b: seq<byte>)
    ensures Extended(Extended(d, a), b) == Extended(d, a + b)
  {
    if d.Connect? {
      assert d.leftover + a + b == d.leftover + (a + b);
    }
  }

  lemma GreetingChunk(h: Handshake, s: seq<byte>, chunk: seq<byte>)
    requires FollowsStream(h, s) && h.decision.NeedMore? && h.stage.Greeting? && s + chunk != []
    ensures FollowsStream(OnChunk(h, chunk), s + chunk)
  {
    var t := OnChunk(h, chunk);
    ExtendedByNothing(t.decision);
    assert forall reply: seq<byte> :: [] + reply == reply;
    match ReadGreeting(s + chunk)
    case GreetingIncomplete =>
    case GreetingBad(reply) => assert t.written == reply;
    case GreetingDone(n) =>
      var d := ReadRequest((s + chunk)[n..]);
      assert t.decision == d && t.written == NO_AUTH_REPLY + if d.Failed? then d.reply else [];
  }

  lemma RequestChunk(h: Handshake, s: seq<byte>, chunk: seq<byte>)
    requires FollowsStream(h, s) && h.decision.NeedMore? && h.stage.Request?
    ensures FollowsStream(OnChunk(h, chunk), s + chunk)
  {
    var n := ReadGreeting(s).length;
    GreetingIsMonotone(s, chunk);
    assert (s + chunk)[n..] == s[n..] + chunk;
    ExtendedByNothing(h.decision);
    ExtendedByNothing(OnChunk(h, chunk).decision);
    assert NO_AUTH_REPLY + [] == NO_AUTH_REPLY;
  }

  lemma DecidedChunk(h: Handshake, s: seq<byte>, chunk: seq<byte>)
    requires FollowsStream(h, s) && !h.decision.NeedMore?
    ensures FollowsStream(OnChunk(h, chunk), s + chunk)
  {
    DecisionIsMonotone(s, chunk);
    ExtendedTwice(h.decision, h.unread, chunk);
  }

  /** A first chunk that is empty is refused at once. */
  lemma EmptyFirstChunkFails()
    ensures OnChunk(FRESH_HANDSHAKE, []).decision.Failed?
  {
  }

  /** For every chunking that does not begin with an empty chunk the handshake decides what the whole
      stream decides, writes the same replies, and no byte behind the request is lost. */
  lemma {:induction false} ChunkingDoesNotMatter(chunks: seq<seq<byte>>, n: nat)
    requires n <= |chunks| && (chunks != [] ==> chunks[0] != [])
    ensures FollowsStream(After(chunks, n), FirstChunks(chunks, n))
    ensures n > 0 ==> FirstChunks(chunks, n) != []
  {
    if n > 0 {
      ChunkingDoesNotMatter(chunks, n - 1);
      var before := After(chunks, n - 1);
      if before.decision.NeedMore? && before.stage.Greeting? {
        GreetingChunk(before, FirstChunks(chunks, n - 1), chunks[n - 1]);
      } else if before.decision.NeedMore? {
        RequestChunk(before, FirstChunks(chunks, n - 1), chunks[n - 1]);
      } else {
        DecidedChunk(before, FirstChunks(chunks, n - 1), chunks[n - 1]);
      }
    }
  }

  // ---- What a client sends ----

  function U16Bytes(n: int): seq<byte>
    requires 0 <= n < 65536
  {
    [n / 256, n % 256]
  }

  predicate ValidHost(host: Host) {
    match host
    case V4(address) => |address| == 4
    case Name(text) => |text| < 256
    case V6(groups) => |groups| == 8 && forall i :: 0 <= i < 8 ==> 0 <= groups[i] < 65536
  }

  /** ATYP and address, section 5 of RFC 1928. */
  function EncodeHost(host: Host): seq<byte>
    requires ValidHost(host)
  {
    match host
    case V4(address) => [1] + address
    case Name(text) => [3, |text|] + text
    case V6(groups) =>
      [4] + seq(16, j requires 0 <= j < 16 =>
        if j % 2 == 0 then groups[j / 2] / 256 else groups[j / 2] % 256)
  }

  function EncodeGreeting(methods: seq<byte>): seq<byte>
    requires |methods| < 256
  {
    [5, |methods|] + methods
  }

  function EncodeConnect(reserved: byte, host: Host, port: int): seq<byte>
    requires ValidHost(host) && 0 <= port < 65536
  {
    [5, 1, reserved] + EncodeHost(host) + U16Bytes(port)
  }

  lemma V4ReadsBack(reserved: byte, address: seq<byte>, port: int, tail: seq<byte>)
    requires |address| == 4 && 0 <= port < 65536
    ensures ReadRequest(EncodeConnect(reserved, V4(address), port) + tail) == Connect(V4(address), port, tail)
  {
    var head := [5, 1, reserved] + ([1] + address);
    var all := head + U16Bytes(port) + tail;
    assert all[4..8] == address && all[10..] == tail;
  }

  lemma NameReadsBack(reserved: byte, text: seq<byte>, port: int, tail: seq<byte>)
    requires |text| < 256 && 0 <= port < 65536
    ensures ReadRequest(EncodeConnect(reserved, Name(text), port) + tail) == Connect(Name(text), port, tail)
  {
    var head := [5, 1, reserved] + ([3, |text|] + text);
    var all := head + U16Bytes(port) + tail;
    assert all[4] == |text|;
    assert all[5..5 + |text|] == text && all[7 + |text|..] == tail;
  }

  lemma V6ReadsBack(reserved: byte, groups: seq<int>, port: int, tail: seq<byte>)
    requires ValidHost(V6(groups)) && 0 <= port < 65536
    ensures ReadRequest(EncodeConnect(reserved, V6(groups), port) + tail) == Connect(V6(groups), port, tail)
  {
    var address := EncodeHost(V6(groups));
    var head := [5, 1, reserved] + address;
    var all := head + U16Bytes(port) + tail;
    var read := V6Groups(all);
    forall i | 0 <= i < 8
      ensures read[i] == groups[i]
    {
      assert all[4 + 2 * i] == address[1 + 2 * i] && all[5 + 2 * i] == address[2 + 2 * i];
      assert (2 * i) / 2 == i && (2 * i + 1) / 2 == i && (2 * i) % 2 == 0 && (2 * i + 1) % 2 == 1;
    }
    assert read == groups && all[22..] == tail;
  }

  lemma ConnectReadsBack(reserved: byte, host: Host, port: int, tail: seq<byte>)
    requires ValidHost(host) && 0 <= port < 65536
    ensures ReadRequest(EncodeConnect(reserved, host, port) + tail) == Connect(host, port, tail)
  {
    match host
    case V4(address) => V4ReadsBack(reserved, address, port, tail);
    case Name(text) => NameReadsBack(reserved, text, port, tail);
    case V6(groups) => V6ReadsBack(reserved, groups, port, tail);
  }

  /** A valid greeting and CONNECT are understood, and everything behind them is handed back. */
  lemma ClientIsUnderstood(methods: seq<byte>, reserved: byte, host: Host, port: int, tail: seq<byte>)
    requires |methods| < 256 && 0 in methods && ValidHost(host) && 0 <= port < 65536
    ensures Decide(EncodeGreeting(methods) + EncodeConnect(reserved, host, port) + tail)
            == (Connect(host, port, tail), [5, 0])
  {
    var request := EncodeConnect(reserved, host, port) + tail;
    var greeting := EncodeGreeting(methods);
    var s := greeting + request;
    assert greeting + EncodeConnect(reserved, host, port) + tail == s;
    assert s[2..2 + |methods|] == methods && s[2 + |methods|..] == request;
    assert s[1] == |methods|;
    ConnectReadsBack(reserved, host, port, tail);
    assert NO_AUTH_REPLY + [] == NO_AUTH_REPLY;
  }

  lemma U16ReadsBack(buf: seq<byte>, at: nat)
    requires at + 1 < |buf|
    ensures 0 <= ReadU16(buf, at) < 65536 && U16Bytes(ReadU16(buf, at)) == [buf[at], buf[at + 1]]
  {
  }

  lemma FourPieces(buf: seq<byte>, i: nat, j: nat, k: nat)
    requires i <= j <= k <= |buf|
    ensures buf == buf[..i] + buf[i..j] + buf[j..k] + buf[k..]
  {
  }

  /** Version, command and reserved byte, an encoded host up to `end`, a port, and what follows. */
  lemma ConnectPieces(buf: seq<byte>, host: Host, end: nat)
    requires ValidHost(host) && 3 <= end && end + 2 <= |buf| && EncodeHost(host) == buf[3..end]
    requires buf[0] == 5 && buf[1] == 1
    ensures 0 <= ReadU16(buf, end) < 65536
    ensures buf == EncodeConnect(buf[2], host, ReadU16(buf, end)) + buf[end + 2..]
  {
    U16ReadsBack(buf, end);
    FourPieces(buf, 3, end, end + 2);
    assert buf[..3] == [5, 1, buf[2]];
    assert buf[end..end + 2] == U16Bytes(ReadU16(buf, end));
  }

  lemma NameIsEncoded(buf: seq<byte>)
    requires |buf| >= 5 && buf[3] == 3 && |buf| >= 5 + Length(buf[4])
    ensures EncodeHost(Name(buf[5..5 + Length(buf[4])])) == buf[3..5 + Length(buf[4])]
  {
    var end := 5 + Length(buf[4]);
    assert buf[3..end] == [buf[3], buf[4]] + buf[5..end];
  }

  lemma V6PairIsEncoded(buf: seq<byte>, i: nat)
    requires |buf| >= 22 && i < 8
    ensures V6Groups(buf)[i] / 256 == buf[4 + 2 * i] && V6Groups(buf)[i] % 256 == buf[5 + 2 * i]
  {
    U16ReadsBack(buf, 4 + 2 * i);
  }

  lemma V6IsEncoded(buf: seq<byte>)
    requires |buf| >= 22 && buf[3] == 4
    ensures EncodeHost(V6(V6Groups(buf))) == buf[3..20]
  {
    var address, same := EncodeHost(V6(V6Groups(buf))), buf[3..20];
    assert address[0] == same[0];
    forall j | 1 <= j < 17
      ensures address[j] == same[j]
    {
      V6PairIsEncoded(buf, (j - 1) / 2);
    }
  }

  /** A request that is accepted is an encoded CONNECT and what follows it. */
  lemma RequestIsEncoded(buf: seq<byte>)
    requires ReadRequest(buf).Connect?
    ensures var d := ReadRequest(buf);
            && ValidHost(d.host) && 0 <= d.port < 65536
            && buf == EncodeConnect(buf[2], d.host, d.port) + d.leftover
  {
    var host := ReadRequest(buf).host;
    if buf[3] == 1 {
      assert EncodeHost(host) == buf[3..8];
      ConnectPieces(buf, host, 8);
    } else if buf[3] == 3 {
      NameIsEncoded(buf);
      ConnectPieces(buf, host, 5 + Length(buf[4]));
    } else {
      V6IsEncoded(buf);
      ConnectPieces(buf, host, 20);
    }
  }

  /** A stream as a client of RFC 1928 sends it: a greeting that offers no authentication, a CONNECT,
      and whatever comes behind. */
  ghost predicate SentByClient(s: seq<byte>, methods: seq<byte>, reserved: byte, host: Host, port: int,
                               tail: seq<byte>)
    requires ValidHost(host) && 0 <= port < 65536
  {
    && |methods| < 256 && 0 in methods
    && s == EncodeGreeting(methods) + EncodeConnect(reserved, host, port) + tail
  }

  lemma GreetingIsEncoded(s: seq<byte>)
    requires s != [] && ReadGreeting(s).GreetingDone?
    ensures var n := ReadGreeting(s).length;
            n - 2 < 256 && 0 in s[2..n] && EncodeGreeting(s[2..n]) == s[..n]
  {
  }

  lemma ThreePieces(s: seq<byte>, n: nat, a: seq<byte>, b: seq<byte>)
    requires n <= |s| && s[n..] == a + b
    ensures s == s[..n] + a + b
  {
    assert s == s[..n] + s[n..];
  }

  lemma ConnectIsSentByClient(s: seq<byte>) returns (methods: seq<byte>, reserved: byte)
    requires Decide(s).0.Connect?
    ensures var d := Decide(s).0;
            && ValidHost(d.host) && 0 <= d.port < 65536
            && SentByClient(s, methods, reserved, d.host, d.port, d.leftover)
  {
    var n, d := ReadGreeting(s).length, Decide(s).0;
    var request := s[n..];
    RequestIsEncoded(request);
    methods, reserved := s[2..n], request[2];
    GreetingIsEncoded(s);
    ThreePieces(s, n, EncodeConnect(reserved, d.host, d.port), d.leftover);
  }

  /** Exactly the streams of clients connect: with a host, a port and a leftover if and only if the
      stream is some greeting and a CONNECT to that host and port with that leftover behind. */
  lemma ConnectsExactly(s: seq<byte>, host: Host, port: int, tail: seq<byte>)
    requires ValidHost(host) && 0 <= port < 65536
    ensures Decide(s).0 == Connect(host, port, tail) <==>
            exists methods, reserved :: SentByClient(s, methods, reserved, host, port, tail)
  {
    if Decide(s).0 == Connect(host, port, tail) {
      var methods, reserved := ConnectIsSentByClient(s);
      assert SentByClient(s, methods, reserved, host, port, tail);
    }
    forall methods: seq<byte>, reserved: byte | SentByClient(s, methods, reserved, host, port, tail)
      ensures Decide(s).0 == Connect(host, port, tail)
    {
      ClientIsUnderstood(methods, reserved, host, port, tail);
    }
  }

  /** So for every chunking of such a stream the destination is the encoded one and the leftover and
      the unread chunks together are exactly the bytes after the request. */
  lemma EveryChunkingConnects(chunks: seq<seq<byte>>, methods: seq<byte>, reserved: byte, host: Host,
                              port: int, tail: seq<byte>)
    requires |methods| < 256 && 0 in methods && ValidHost(host) && 0 <= port < 65536
    requires chunks != [] ==> chunks[0] != []
    requires FirstChunks(chunks, |chunks|)
             == EncodeGreeting(methods) + EncodeConnect(reserved, host, port) + tail
    ensures var h := After(chunks, |chunks|);
            && h.decision.Connect? && h.decision.host == host && h.decision.port == port
            && h.decision.leftover + h.unread == tail
            && h.written == [5, 0]
  {
    ClientIsUnderstood(methods, reserved, host, port, tail);
    ChunkingDoesNotMatter(chunks, |chunks|);
  }

  // ---- The closure's variables ----

  class Socks5Reader {
    var stage: Stage
    var buffer: seq<byte>
    var decision: Decision
    var written: seq<byte>
    ghost var unread: seq<byte>

    ghost function View(): Handshake
      reads this
    {
      Handshake(stage, buffer, decision, written, unread)
    }

    constructor ()
      ensures View() == FRESH_HANDSHAKE
    {
      stage, buffer, decision, written, unread := Greeting, [], NeedMore, [], [];
    }

    method FailWith(reply: seq<byte>)
      modifies this`decision, this`written
      ensures decision == Failed(reply) && written == old(written) + reply
    {
      decision := Failed(reply);
      written := written + reply;
    }

    method OnData(chunk: seq<byte>)
      requires decision.NeedMore?
      modifies this
      ensures View() == OnChunk(old(View()), chunk)
    {
      buffer := buffer + chunk;
      if stage.Greeting? {
        match ReadGreeting(buffer) {
          case GreetingIncomplete => return;
          case GreetingBad(reply) =>
            FailWith(reply);
            return;
          case GreetingDone(n) =>
            buffer := buffer[n..];
            stage := Request;
            written := written + NO_AUTH_REPLY;
        }
      }
      decision := ReadRequest(buffer);
      if decision.Failed? {
        FailWith(decision.reply);
      }
      assert written + [] == written;
    }
  }
}
