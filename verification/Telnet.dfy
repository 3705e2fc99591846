/** A Telnet session, byte by byte. */
module Telnet {
  // The session takes commands out of the incoming stream, answers option requests, and escapes what it
  // sends (RFC 854 and 855; window size per RFC 1073; terminal type per RFC 1091).

  import opened Basics

  const IAC: byte := 255
  const DONT: byte := 254
  const DO: byte := 253
  const WONT: byte := 252
  const WILL: byte := 251
  const SB: byte := 250
  const SE: byte := 240
  const OPT_ECHO: byte := 1
  const OPT_SGA: byte := 3
  const OPT_TTYPE: byte := 24
  const OPT_NAWS: byte := 31
  const TTYPE_IS: byte := 0
  const TTYPE_SEND: byte := 1

  /** "xterm-256color". */
  const TERMINAL_NAME: seq<byte> := [120, 116, 101, 114, 109, 45, 50, 53, 54, 99, 111, 108, 111, 114]

  // ---- One item of the stream ----

  datatype Item =
    | Plain(b: byte)
    | Option_(cmd: byte, opt: byte)
    | Subnegotiation(payload: seq<byte>)
    | Other(cmd: byte)

  /** The index of the IAC of the first real IAC SE from `from` on; an IAC followed by anything else
      hides the byte after it. */
  function FindSe(buf: seq<byte>, from: nat): (r: Option<nat>)
    ensures r.Some? ==> from <= r.value && r.value + 1 < |buf|
    ensures r.Some? ==> buf[r.value] == IAC && buf[r.value + 1] == SE
    decreases |buf| - from
  {
    if from + 1 >= |buf| then None
    else if buf[from] != IAC then FindSe(buf, from + 1)
    else if buf[from + 1] == SE then Some(from)
    else FindSe(buf, from + 2)
  }

  predicate IsOptionCommand(cmd: byte) {
    cmd == DO || cmd == DONT || cmd == WILL || cmd == WONT
  }

  /** The first item and its length, or None when the buffer does not hold all of it yet. */
  function Next(buf: seq<byte>): (r: Option<(Item, nat)>)
    ensures r.Some? ==> 0 < r.value.1 <= |buf|
  {
    if buf == [] then None
    else if buf[0] != IAC then Some((Plain(buf[0]), 1))
    else if |buf| == 1 then None
    else if buf[1] == IAC then Some((Plain(IAC), 2))
    else if buf[1] == SB then
      var se := FindSe(buf, 2);
      if se.None? then None else Some((Subnegotiation(buf[2..se.value]), se.value + 2))
    else if IsOptionCommand(buf[1]) then
      if |buf| == 2 then None else Some((Option_(buf[1], buf[2]), 3))
    else Some((Other(buf[1]), 2))
  }

  /** All complete items of a buffer, and the incomplete rest. */
  function Parse(buf: seq<byte>): (seq<Item>, seq<byte>)
    decreases |buf|
  {
    var next := Next(buf);
    if next.None? then ([], buf)
    else
      var rest := Parse(buf[next.value.1..]);
      ([next.value.0] + rest.0, rest.1)
  }

  /** One turn of the loop that consumes a buffer. */
  lemma ParseFrom(all: seq<byte>, i: nat)
    requires i <= |all|
    ensures var next := Next(all[i..]);
            Parse(all[i..]) ==
            if next.None? then ([], all[i..])
            else ([next.value.0] + Parse(all[i + next.value.1..]).0, Parse(all[i + next.value.1..]).1)
  {
    var next := Next(all[i..]);
    if next.Some? {
      assert all[i..][next.value.1..] == all[i + next.value.1..];
    }
  }

  // ---- Chunk boundaries do not matter ----

  lemma {:induction false} FindSeIsStable(buf: seq<byte>, more: seq<byte>, from: nat)
    requires FindSe(buf, from).Some?
    ensures FindSe(buf + more, from) == FindSe(buf, from)
    decreases |buf| - from
  {
    if buf[from] != IAC {
      FindSeIsStable(buf, more, from + 1);
    } else if buf[from + 1] != SE {
      FindSeIsStable(buf, more, from + 2);
    }
  }

  /** A complete item stays the first item whatever arrives later. */
  lemma NextIsStable(buf: seq<byte>, more: seq<byte>)
    requires Next(buf).Some?
    ensures Next(buf + more) == Next(buf)
  {
    if buf[0] == IAC && buf[1] == SB {
      FindSeIsStable(buf, more, 2);
      var se := FindSe(buf, 2).value;
      assert (buf + more)[2..se] == buf[2..se];
    }
  }

  /** Parsing what is left of a first chunk together with a second one continues the parse of both. */
  lemma {:induction false} ParseContinues(buf: seq<byte>, more: seq<byte>)
    ensures var first := Parse(buf);
            var second := Parse(first.1 + more);
            Parse(buf + more) == (first.0 + second.0, second.1)
    decreases |buf|
  {
    var next := Next(buf);
    if next.Some? {
      var n := next.value.1;
      NextIsStable(buf, more);
      assert (buf + more)[n..] == buf[n..] + more;
      ParseContinues(buf[n..], more);
      var rest := Parse(buf[n..]);
      var second := Parse(rest.1 + more);
      assert [next.value.0] + (rest.0 + second.0) == ([next.value.0] + rest.0) + second.0;
    } else {
      assert [] + Parse(buf + more).0 == Parse(buf + more).0;
    }
  }

  /** What stays in the buffer is a command that has begun and is not complete. */
  lemma {:induction false} RestIsIncomplete(buf: seq<byte>)
    ensures Next(Parse(buf).1).None?
    ensures Parse(buf).1 == [] || Parse(buf).1[0] == IAC
    decreases |buf|
  {
    if Next(buf).Some? {
      RestIsIncomplete(buf[Next(buf).value.1..]);
    }
  }

  // ---- Reacting to the items ----

  /** What was negotiated, what was sent, and the data shown. */
  datatype Session = Session(
    mine: map<byte, bool>, peer: map<byte, bool>, cols: int, rows: int,
    sent: seq<byte>, data: seq<byte>)

  /** A number as the low byte that a buffer stores of it. */
  function LowByte(n: int): byte {
    n % 256
  }

  function Doubled(value: int): seq<byte> {
    if value == IAC then [IAC, IAC] else [LowByte(value)]
  }

  /** Each number as a byte, 255 doubled. The check for 255 is made on the number, before it is cut
      down to a byte. */
  function DoubleAll(values: seq<int>): seq<byte> {
    if values == [] then [] else Doubled(values[0]) + DoubleAll(values[1..])
  }

  lemma {:induction false} DoubleAllSnoc(values: seq<int>, last: int)
    ensures DoubleAll(values + [last]) == DoubleAll(values) + Doubled(last)
  {
    if values == [] {
      assert [] + [last] == [last] && [last][1..] == [];
      assert Doubled(last) + [] == Doubled(last);
    } else {
      assert (values + [last])[1..] == values[1..] + [last];
      DoubleAllSnoc(values[1..], last);
    }
  }

  lemma OneMoreDoubled(bytes: seq<byte>, i: nat)
    requires i < |bytes|
    ensures DoubleAll(bytes[..i + 1]) ==
            if bytes[i] == IAC then DoubleAll(bytes[..i]) + [bytes[i]] + [IAC] else DoubleAll(bytes[..i]) + [bytes[i]]
  {
    assert bytes[..i + 1] == bytes[..i] + [bytes[i]];
    DoubleAllSnoc(bytes[..i], bytes[i]);
    assert DoubleAll(bytes[..i]) + [bytes[i]] + [IAC] == DoubleAll(bytes[..i]) + ([bytes[i]] + [IAC]);
  }

  function SizeValues(cols: int, rows: int): seq<int> {
    [OPT_NAWS, cols / 256, cols % 256, rows / 256, rows % 256]
  }

  /** IAC SB NAWS, the four size bytes, IAC SE. */
  function WindowSize(cols: int, rows: int): seq<byte> {
    [IAC, SB] + DoubleAll(SizeValues(cols, rows)) + [IAC, SE]
  }

  function Send(s: Session, bytes: seq<byte>): Session {
    s.(sent := s.sent + bytes)
  }

  predicate Known(options: map<byte, bool>, opt: byte, on: bool) {
    opt in options && options[opt] == on
  }

  function Respond(s: Session, cmd: byte, opt: byte): Session {
    if cmd == DO then
      var enable := opt == OPT_SGA || opt == OPT_TTYPE || opt == OPT_NAWS;
      if Known(s.mine, opt, enable) then s
      else
        var t := Send(s.(mine := s.mine[opt := enable]), [IAC, if enable then WILL else WONT, opt]);
        if enable && opt == OPT_NAWS then Send(t, WindowSize(s.cols, s.rows)) else t
    else if cmd == WILL then
      var accept := opt == OPT_ECHO || opt == OPT_SGA;
      if Known(s.peer, opt, accept) then s
      else Send(s.(peer := s.peer[opt := accept]), [IAC, if accept then DO else DONT, opt])
    else if cmd == DONT then
      if Known(s.mine, opt, false) then s
      else Send(s.(mine := s.mine[opt := false]), [IAC, WONT, opt])
    else if cmd == WONT then
      if Known(s.peer, opt, false) then s
      else Send(s.(peer := s.peer[opt := false]), [IAC, DONT, opt])
    else s
  }

  function OnSubnegotiation(s: Session, payload: seq<byte>): Session {
    if |payload| >= 2 && payload[0] == OPT_TTYPE && payload[1] == TTYPE_SEND
    then Send(s, [IAC, SB, OPT_TTYPE, TTYPE_IS] + TERMINAL_NAME + [IAC, SE]) else s
  }

  function Act(s: Session, item: Item): Session {
    match item
    case Plain(b) => s.(data := s.data + [b])
    case Option_(cmd, opt) => Respond(s, cmd, opt)
    case Subnegotiation(payload) => OnSubnegotiation(s, payload)
    case Other(_) => s
  }

  function ActAll(s: Session, items: seq<Item>): Session
    decreases |items|
  {
    if items == [] then s else ActAll(Act(s, items[0]), items[1..])
  }

  lemma ActOnFirst(s: Session, item: Item, rest: seq<Item>)
    ensures ActAll(s, [item] + rest) == ActAll(Act(s, item), rest)
  {
    assert ([item] + rest)[1..] == rest;
  }

  lemma {:induction false} ActConcat(s: Session, a: seq<Item>, b: seq<Item>)
    ensures ActAll(s, a + b) == ActAll(ActAll(s, a), b)
    decreases |a|
  {
    if a == [] {
      assert a + b == b;
    } else {
      assert (a + b)[1..] == a[1..] + b;
      ActConcat(Act(s, a[0]), a[1..], b);
    }
  }

  /** A session with its unparsed bytes, after one more chunk. */
  function OnChunk(s: Session, buffer: seq<byte>, chunk: seq<byte>): (Session, seq<byte>) {
    var parsed := Parse(buffer + chunk);
    (ActAll(s, parsed.0), parsed.1)
  }

  /** After the first n chunks of a connection. */
  function AfterChunks(s: Session, chunks: seq<seq<byte>>, n: nat): (Session, seq<byte>)
    requires n <= |chunks|
  {
    if n == 0 then (s, [])
    else
      var before := AfterChunks(s, chunks, n - 1);
      OnChunk(before.0, before.1, chunks[n - 1])
  }

  lemma TwoChunksAreOne(s: Session, a: seq<byte>, b: seq<byte>)
    ensures var first := OnChunk(s, [], a);
            OnChunk(first.0, first.1, b) == OnChunk(s, [], a + b)
  {
    assert [] + a == a && [] + (a + b) == a + b;
    ParseContinues(a, b);
    ActConcat(s, Parse(a).0, Parse(Parse(a).1 + b).0);
  }

  lemma NothingReceived(s: Session)
    ensures OnChunk(s, [], []) == (s, [])
  {
  }

  /** For every chunking the data shown, the answers sent, the options and the kept bytes are those
      of one parse of the whole stream; what is kept is a command that is not complete. */
  lemma {:induction false} ChunkInvariance(s: Session, chunks: seq<seq<byte>>, n: nat)
    requires n <= |chunks|
    ensures AfterChunks(s, chunks, n) == OnChunk(s, [], FirstChunks(chunks, n))
    ensures Next(AfterChunks(s, chunks, n).1).None?
  {
    if n == 0 {
      NothingReceived(s);
    } else {
      ChunkInvariance(s, chunks, n - 1);
      TwoChunksAreOne(s, FirstChunks(chunks, n - 1), chunks[n - 1]);
    }
    RestIsIncomplete([] + FirstChunks(chunks, n));
  }

  // ---- Escaping ----

  function PlainItems(bytes: seq<byte>): seq<Item> {
    seq(|bytes|, i requires 0 <= i < |bytes| => Plain(bytes[i]))
  }

  /** Escaped data parses back to itself, as data only and with nothing kept. */
  lemma {:induction false} EscapedDataParsesBack(bytes: seq<byte>)
    ensures Parse(DoubleAll(bytes)) == (PlainItems(bytes), [])
  {
    if bytes == [] {
      assert PlainItems(bytes) == [];
    } else {
      EscapedDataParsesBack(bytes[1..]);
      var text := DoubleAll(bytes);
      assert PlainItems(bytes) == [Plain(bytes[0])] + PlainItems(bytes[1..]);
      assert text[|Doubled(bytes[0])|..] == DoubleAll(bytes[1..]);
    }
  }

  /** What a receiver makes of a subnegotiation payload: doubled 255s are single again; None when a
      255 stands alone. */
  function Undouble(payload: seq<byte>): Option<seq<byte>>
    decreases |payload|
  {
    if payload == [] then Some([])
    else if payload[0] == IAC && (|payload| == 1 || payload[1] != IAC) then None
    else
      var rest := Undouble(payload[if payload[0] == IAC then 2 else 1..]);
      if rest.None? then None else Some([payload[0]] + rest.value)
  }

  function LowBytes(values: seq<int>): seq<byte> {
    if values == [] then [] else [LowByte(values[0])] + LowBytes(values[1..])
  }

  /** The byte a number is sent as says when it is 255 that the number is 255. */
  predicate DoublesRightly(value: int) {
    LowByte(value) == IAC ==> value == IAC
  }

  lemma {:induction false} DoubledUndoubles(values: seq<int>)
    requires forall v :: v in values ==> DoublesRightly(v)
    ensures Undouble(DoubleAll(values)) == Some(LowBytes(values))
  {
    if values != [] {
      assert values[0] in values && forall v :: v in values[1..] ==> v in values;
      DoubledUndoubles(values[1..]);
      assert DoubleAll(values)[|Doubled(values[0])|..] == DoubleAll(values[1..]);
    }
  }

  lemma Regroup(before: seq<byte>, d: seq<byte>, more: seq<byte>, tail: seq<byte>)
    ensures before + (d + more) + tail == (before + d) + more + tail == before + d + (more + tail)
    ensures |before + (d + more)| == |before + d| + |more|
  {
  }

  /** `findSe` walks over doubled numbers and stops exactly at the closing IAC SE. */
  lemma {:induction false} DoubledEndsAtSe(before: seq<byte>, values: seq<int>)
    requires forall v :: v in values ==> DoublesRightly(v)
    ensures FindSe(before + DoubleAll(values) + [IAC, SE], |before|)
            == Some(|before| + |DoubleAll(values)|)
    decreases |values|
  {
    if values == [] {
      assert before + [] + [IAC, SE] == before + [IAC, SE];
    } else {
      assert values[0] in values && forall v :: v in values[1..] ==> v in values;
      var d, more := Doubled(values[0]), DoubleAll(values[1..]);
      Regroup(before, d, more, [IAC, SE]);
      DoubledEndsAtSe(before + d, values[1..]);
    }
  }

  function Count255(values: seq<int>): nat {
    if values == [] then 0 else (if values[0] == IAC then 1 else 0) + Count255(values[1..])
  }

  lemma {:induction false} DoubleAllLength(values: seq<int>)
    ensures |DoubleAll(values)| == |values| + Count255(values)
    ensures |LowBytes(values)| == |values|
  {
    if values != [] {
      DoubleAllLength(values[1..]);
    }
  }

  /** A payload that can be undoubled is longer than the result by its number of 255s. */
  lemma {:induction false} UndoubleLength(payload: seq<byte>)
    requires Undouble(payload).Some?
    ensures |payload| == |Undouble(payload).value| + Count255(Undouble(payload).value)
    decreases |payload|
  {
    if payload != [] {
      var n := if payload[0] == IAC then 2 else 1;
      UndoubleLength(payload[n..]);
      var rest := Undouble(payload[n..]).value;
      assert ([payload[0]] + rest)[1..] == rest;
    }
  }

  lemma {:induction false} CutDownAddsCounts(values: seq<int>)
    ensures Count255(values) <= Count255(LowBytes(values))
    ensures Count255(values) == Count255(LowBytes(values)) ==>
            forall v :: v in values ==> DoublesRightly(v)
  {
    if values != [] {
      CutDownAddsCounts(values[1..]);
      assert LowBytes(values)[1..] == LowBytes(values[1..]);
      assert values == [values[0]] + values[1..];
    }
  }

  /** The frame is one subnegotiation that a receiver undoubles to the four size bytes. */
  ghost predicate SizeIsUnderstood(cols: int, rows: int) {
    var frame := WindowSize(cols, rows);
    var next := Next(frame);
    && next.Some? && next.value.1 == |frame| && next.value.0.Subnegotiation?
    && Undouble(next.value.0.payload) == Some(LowBytes(SizeValues(cols, rows)))
  }

  lemma SizeExactly(cols: int, rows: int)
    ensures SizeIsUnderstood(cols, rows) <==>
            forall v :: v in SizeValues(cols, rows) ==> DoublesRightly(v)
  {
    var values, frame := SizeValues(cols, rows), WindowSize(cols, rows);
    var payload := DoubleAll(values);
    assert frame[2..|frame| - 2] == payload;
    if forall v :: v in values ==> DoublesRightly(v) {
      DoubledEndsAtSe([IAC, SB], values);
      DoubledUndoubles(values);
    }
    if SizeIsUnderstood(cols, rows) {
      assert Next(frame).value.0.payload == payload;
      UndoubleLength(payload);
      DoubleAllLength(values);
      CutDownAddsCounts(values);
    }
  }

  /** The window size is understood exactly when no high byte is a larger number cut down to 255: so
      for all sizes below 65536, but not for instance for 130816 columns. */
  lemma WindowSizeExactly(cols: int, rows: int)
    ensures SizeIsUnderstood(cols, rows) <==> DoublesRightly(cols / 256) && DoublesRightly(rows / 256)
    ensures 0 <= cols < 65536 && 0 <= rows < 65536 ==> SizeIsUnderstood(cols, rows)
    ensures !SizeIsUnderstood(130816, rows)
  {
    SizeExactly(cols, rows);
    SizeExactly(130816, rows);
    assert cols / 256 in SizeValues(cols, rows) && rows / 256 in SizeValues(cols, rows);
    assert 130816 / 256 in SizeValues(130816, rows);
  }

  /** A request that asks for the state already agreed gets no answer, and an answer is sent exactly
      when the agreed state changes. */
  lemma AnswersOnlyChanges(s: Session, cmd: byte, opt: byte)
    ensures Respond(s, cmd, opt).sent == s.sent <==>
            Respond(s, cmd, opt).mine == s.mine && Respond(s, cmd, opt).peer == s.peer
    ensures Respond(Respond(s, cmd, opt), cmd, opt) == Respond(s, cmd, opt)
  {
    var t := Respond(s, cmd, opt);
    if t.sent == s.sent {
      assert |t.sent| == |s.sent|;
    }
  }

  // ---- The object ----

  class TelnetSession {
    var buffer: seq<byte>
    var mine: map<byte, bool>
    var peer: map<byte, bool>
    var cols: int
    var rows: int
    var sent: seq<byte>
    var data: seq<byte>

    ghost function View(): Session
      reads this
    {
      Session(mine, peer, cols, rows, sent, data)
    }

    constructor (cols: int, rows: int)
      ensures View() == Session(map[], map[], cols, rows, [], []) && buffer == []
    {
      buffer, mine, peer, sent, data := [], map[], map[], [], [];
      this.cols, this.rows := cols, rows;
    }

    method SendWindowSize()
      modifies this`sent
      ensures View() == Send(old(View()), WindowSize(cols, rows))
    {
      var values := SizeValues(cols, rows);
      var payload := [IAC, SB];
      for i := 0 to |values|
        invariant payload + DoubleAll(values[i..]) == [IAC, SB] + DoubleAll(values)
      {
        assert values[i..][1..] == values[i + 1..];
        payload := payload + Doubled(values[i]);
      }
      assert values[|values|..] == [] && payload + [] == payload;
      sent := sent + (payload + [IAC, SE]);
    }

    method RespondOption(cmd: byte, opt: byte)
      modifies this`mine, this`peer, this`sent
      ensures View() == Respond(old(View()), cmd, opt)
    {
      if cmd == DO {
        var enable := opt == OPT_SGA || opt == OPT_TTYPE || opt == OPT_NAWS;
        if Known(mine, opt, enable) {
          return;
        }
        mine := mine[opt := enable];
        sent := sent + [IAC, if enable then WILL else WONT, opt];
        if enable && opt == OPT_NAWS {
          SendWindowSize();
        }
      } else if cmd == WILL {
        var accept := opt == OPT_ECHO || opt == OPT_SGA;
        if Known(peer, opt, accept) {
          return;
        }
        peer := peer[opt := accept];
        sent := sent + [IAC, if accept then DO else DONT, opt];
      } else if cmd == DONT {
        if Known(mine, opt, false) {
          return;
        }
        mine := mine[opt := false];
        sent := sent + [IAC, WONT, opt];
      } else if cmd == WONT {
        if Known(peer, opt, false) {
          return;
        }
        peer := peer[opt := false];
        sent := sent + [IAC, DONT, opt];
      }
    }

    method HandleSubnegotiation(payload: seq<byte>)
      modifies this`sent
      ensures View() == OnSubnegotiation(old(View()), payload)
    {
      if |payload| >= 2 && payload[0] == OPT_TTYPE && payload[1] == TTYPE_SEND {
        sent := sent + ([IAC, SB, OPT_TTYPE, TTYPE_IS] + TERMINAL_NAME + [IAC, SE]);
      }
    }

    method ActOn(item: Item)
      modifies this`data, this`mine, this`peer, this`sent
      ensures View() == Act(old(View()), item)
    {
      match item {
        case Plain(b) => data := data + [b];
        case Option_(cmd, opt) => RespondOption(cmd, opt);
        case Subnegotiation(payload) => HandleSubnegotiation(payload);
        case Other(_) =>
      }
    }

    method OnData(chunk: seq<byte>)
      modifies this
      ensures (View(), buffer) == OnChunk(old(View()), old(buffer), chunk)
    {
      buffer := buffer + chunk;
      var i := 0;
      ghost var all, parsed := buffer, Parse(buffer);
      ghost var todo := parsed.0;
      assert all[0..] == all;
      while i < |buffer|
        invariant i <= |buffer| && buffer == all
        invariant Parse(all[i..]) == (todo, parsed.1)
        invariant ActAll(View(), todo) == ActAll(old(View()), parsed.0)
        decreases |buffer| - i
      {
        ParseFrom(all, i);
        var next := Next(buffer[i..]);
        if next.None? {
          break;
        }
        todo := Parse(all[i + next.value.1..]).0;
        ActOnFirst(View(), next.value.0, todo);
        ActOn(next.value.0);
        i := i + next.value.1;
      }
      ParseFrom(all, i);
      buffer := buffer[i..];
    }

    method Write(bytes: seq<byte>)
      modifies this`sent
      ensures View() == Send(old(View()), DoubleAll(bytes))
    {
      var escaped := Escaped(bytes);
      sent := sent + escaped;
    }

    /** Doubles every 255, copying the rest. */
    static method Escaped(bytes: seq<byte>) returns (escaped: seq<byte>)
      ensures escaped == DoubleAll(bytes)
    {
      escaped := [];
      for i := 0 to |bytes|
        invariant escaped == DoubleAll(bytes[..i])
      {
        OneMoreDoubled(bytes, i);
        escaped := escaped + [bytes[i]];
        if bytes[i] == IAC {
          escaped := escaped + [IAC];
        }
      }
      assert bytes[..|bytes|] == bytes;
    }

    method Resize(newCols: int, newRows: int)
      modifies this`cols, this`rows, this`sent
      ensures View() == Send(old(View()).(cols := newCols, rows := newRows), WindowSize(newCols, newRows))
    {
      cols, rows := newCols, newRows;
      SendWindowSize();
    }
  }
}
