/** What a Telnet session reads and answers, in the byte values of RFC 854, 855, 857, 858, 1073 and 1091. */
module TelnetLaws {
  import opened Basics
  import opened Telnet

  // ---- What is read ----

  /** The bytes of one item. */
  function Wire(item: Item): seq<byte> {
    match item
    case Plain(b) => if b == 255 then [255, 255] else [b]
    case Option_(cmd, opt) => [255, cmd, opt]
    case Subnegotiation(payload) => [255, 250] + payload + [255, 240]
    case Other(cmd) => [255, cmd]
  }

  function WireAll(items: seq<Item>): seq<byte> {
    if items == [] then [] else Wire(items[0]) + WireAll(items[1..])
  }

  /** Option commands are 251 to 254; 250 and 255 have readings of their own. */
  ghost predicate ItemIsSound(item: Item) {
    match item
    case Option_(cmd, _) => 251 <= cmd <= 254
    case Other(cmd) => cmd < 250
    case _ => true
  }

  lemma FirstItemOnTheWire(buf: seq<byte>)
    requires Next(buf).Some?
    ensures var (item, n) := Next(buf).value;
            buf[..n] == Wire(item) && ItemIsSound(item)
  {
    if buf[0] == 255 && buf[1] == 250 {
      var se := FindSe(buf, 2).value;
      assert buf[..se + 2] == [255, 250] + buf[2..se] + [255, 240];
    }
  }

  lemma OneMoreOnTheWire(buf: seq<byte>, n: nat, item: Item, items: seq<Item>, rest: seq<byte>)
    requires n <= |buf| && buf[..n] == Wire(item) && buf[n..] == WireAll(items) + rest
    ensures buf == WireAll([item] + items) + rest
  {
    var wire := Wire(item);
    assert ([item] + items)[1..] == items;
    assert buf == wire + (WireAll(items) + rest) == wire + WireAll(items) + rest;
  }

  lemma ParseFirst(buf: seq<byte>, item: Item, n: nat, items: seq<Item>, rest: seq<byte>)
    requires Next(buf) == Some((item, n)) && n <= |buf| && Parse(buf[n..]) == (items, rest)
    ensures Parse(buf) == ([item] + items, rest)
  {
  }

  /** No byte is lost, made up or moved: the items read and what is kept are the stream. */
  lemma {:induction false} ItemsAreTheStream(buf: seq<byte>, items: seq<Item>, rest: seq<byte>)
    requires Parse(buf) == (items, rest)
    ensures buf == WireAll(items) + rest
    decreases |buf|
  {
    var next := Next(buf);
    if next.None? {
      assert buf == [] + buf;
    } else {
      var item, n := next.value.0, next.value.1;
      var later := Parse(buf[n..]);
      ParseFirst(buf, item, n, later.0, later.1);
      FirstItemOnTheWire(buf);
      ItemsAreTheStream(buf[n..], later.0, later.1);
      OneMoreOnTheWire(buf, n, item, later.0, later.1);
    }
  }

  lemma {:induction false} ItemsAreSound(buf: seq<byte>, i: nat)
    requires i < |Parse(buf).0|
    ensures ItemIsSound(Parse(buf).0[i])
    decreases |buf|
  {
    FirstItemOnTheWire(buf);
    if i > 0 {
      ItemsAreSound(buf[Next(buf).value.1..], i - 1);
    }
  }

  // ---- What is agreed ----

  /** A request for an option, to be on or off; on only where it is supported. */
  function Asked(options: map<byte, bool>, item: Item, on: byte, off: byte, supported: set<byte>): map<byte, bool> {
    match item
    case Option_(cmd, opt) =>
      if cmd == on then options[opt := opt in supported] else if cmd == off then options[opt := false] else options
    case _ => options
  }

  /** What items agree on: for each option the last request for it decides. */
  function Agreed(items: seq<Item>, n: nat, on: byte, off: byte, supported: set<byte>): map<byte, bool>
    requires n <= |items|
  {
    if n == 0 then map[] else Asked(Agreed(items, n - 1, on, off, supported), items[n - 1], on, off, supported)
  }

  function Shown(items: seq<Item>, n: nat): seq<byte>
    requires n <= |items|
  {
    if n == 0 then []
    else Shown(items, n - 1) + if items[n - 1].Plain? then [items[n - 1].b] else []
  }

  /** A session but for its size and what it sent. */
  datatype Talk = Talk(mine: map<byte, bool>, peer: map<byte, bool>, data: seq<byte>)

  function TalkOf(s: Session): Talk {
    Talk(s.mine, s.peer, s.data)
  }

  /** This side turns on SGA, TTYPE and NAWS (3, 24, 31) when asked to (DO 253, DONT 254), and accepts ECHO
      and SGA (1, 3) of the other side (WILL 251, WONT 252). */
  function TalkOver(items: seq<Item>, n: nat): Talk
    requires n <= |items|
  {
    Talk(Agreed(items, n, 253, 254, {3, 24, 31}), Agreed(items, n, 251, 252, {1, 3}), Shown(items, n))
  }

  lemma KnownStays(options: map<byte, bool>, opt: byte, on: bool)
    ensures Known(options, opt, on) ==> options[opt := on] == options
  {
  }

  lemma ItemAgrees(s: Session, item: Item)
    ensures TalkOf(Act(s, item)) ==
            Talk(Asked(s.mine, item, 253, 254, {3, 24, 31}), Asked(s.peer, item, 251, 252, {1, 3}),
                 s.data + if item.Plain? then [item.b] else [])
  {
    assert s.data + [] == s.data;
    if item.Option_? {
      KnownStays(s.mine, item.opt, false);
      KnownStays(s.mine, item.opt, true);
      KnownStays(s.peer, item.opt, false);
      KnownStays(s.peer, item.opt, true);
    }
  }

  lemma OneMoreItem(s: Session, items: seq<Item>, n: nat)
    requires n < |items|
    ensures ActAll(s, items[..n + 1]) == Act(ActAll(s, items[..n]), items[n])
  {
    assert items[..n + 1] == items[..n] + [items[n]];
    ActConcat(s, items[..n], [items[n]]);
    assert [items[n]][1..] == [];
  }

  lemma {:induction false} ItemsAgree(s: Session, items: seq<Item>, n: nat)
    requires n <= |items| && TalkOf(s) == Talk(map[], map[], [])
    ensures TalkOf(ActAll(s, items[..n])) == TalkOver(items, n)
  {
    if n > 0 {
      ItemsAgree(s, items, n - 1);
      OneMoreItem(s, items, n - 1);
      ItemAgrees(ActAll(s, items[..n - 1]), items[n - 1]);
    }
  }

  /** Over every connection, however it is cut into chunks: options and data shown are what the items of
      the stream say, the last request for an option deciding. */
  lemma LastRequestDecides(s: Session, chunks: seq<seq<byte>>, n: nat)
    requires n <= |chunks| && TalkOf(s) == Talk(map[], map[], [])
    ensures var items := Parse(FirstChunks(chunks, n)).0;
            TalkOf(AfterChunks(s, chunks, n).0) == TalkOver(items, |items|)
  {
    var items := Parse(FirstChunks(chunks, n)).0;
    ChunkInvariance(s, chunks, n);
    assert [] + FirstChunks(chunks, n) == FirstChunks(chunks, n) && items[..|items|] == items;
    ItemsAgree(s, items, |items|);
  }

  lemma {:induction false} OnlySupported(items: seq<Item>, n: nat, on: byte, off: byte, supported: set<byte>, opt: byte)
    requires n <= |items|
    ensures var agreed := Agreed(items, n, on, off, supported);
            opt in agreed && agreed[opt] ==> opt in supported
  {
    if n > 0 {
      OnlySupported(items, n - 1, on, off, supported, opt);
    }
  }

  // ---- What is answered ----

  predicate On(options: map<byte, bool>, opt: byte) {
    opt in options && options[opt]
  }

  /** The answer to a request about an option says what now holds: WILL or WONT (251, 252) to DO and DONT,
      DO or DONT (253, 254) to WILL and WONT. */
  function AnswerCode(t: Session, cmd: byte, opt: byte): byte {
    if cmd == 253 || cmd == 254 then (if On(t.mine, opt) then 251 else 252)
    else if On(t.peer, opt) then 253
    else 254
  }

  /** Nothing when nothing changes, else one answer, and behind a newly promised window size the size. */
  ghost predicate AnswerFits(s: Session, t: Session, cmd: byte, opt: byte, added: seq<byte>) {
    && t.sent == s.sent + added
    && (TalkOf(t) == TalkOf(s) ==> added == [])
    && (TalkOf(t) != TalkOf(s) ==> Next(added) == Some((Option_(AnswerCode(t, cmd, opt), opt), 3)))
    && (TalkOf(t) != TalkOf(s) ==>
          added[3..] == if cmd == 253 && opt == 31 then WindowSize(s.cols, s.rows) else [])
  }

  lemma NothingAnswered(s: Session, cmd: byte, opt: byte)
    ensures AnswerFits(s, s, cmd, opt, [])
  {
    assert s.sent + [] == s.sent;
  }

  lemma OwnOptionAnswered(s: Session, cmd: byte, opt: byte) returns (added: seq<byte>)
    requires cmd == 253 || cmd == 254
    ensures AnswerFits(s, Respond(s, cmd, opt), cmd, opt, added)
  {
    NothingAnswered(s, cmd, opt);
    var t := Respond(s, cmd, opt);
    added := t.sent[|s.sent|..];
    assert t != s ==> t.mine[opt] == (cmd == 253 && opt in {3, 24, 31}) && t.mine != s.mine;
  }

  lemma PeerOptionAnswered(s: Session, cmd: byte, opt: byte) returns (added: seq<byte>)
    requires cmd == 251 || cmd == 252
    ensures AnswerFits(s, Respond(s, cmd, opt), cmd, opt, added)
  {
    NothingAnswered(s, cmd, opt);
    var t := Respond(s, cmd, opt);
    added := t.sent[|s.sent|..];
    assert t != s ==> t.peer[opt] == (cmd == 251 && opt in {1, 3}) && t.peer != s.peer;
  }

  /** Every option request is answered by what then holds, and only when that is new. */
  lemma AnswersSayWhatHolds(s: Session, cmd: byte, opt: byte) returns (added: seq<byte>)
    requires 251 <= cmd <= 254
    ensures AnswerFits(s, Act(s, Option_(cmd, opt)), cmd, opt, added)
  {
    if cmd == 253 || cmd == 254 {
      added := OwnOptionAnswered(s, cmd, opt);
    } else {
      added := PeerOptionAnswered(s, cmd, opt);
    }
  }

  predicate Spells(bytes: seq<byte>, text: string) {
    |bytes| == |text| && forall i :: 0 <= i < |text| ==> bytes[i] == text[i] as int
  }

  lemma {:induction false} FirstIacEnds(buf: seq<byte>, from: nat, end: nat)
    requires from <= end && end + 1 < |buf| && buf[end] == IAC && buf[end + 1] == SE
    requires forall i :: from <= i < end ==> buf[i] != IAC
    ensures FindSe(buf, from) == Some(end)
    decreases end - from
  {
    if from < end {
      FirstIacEnds(buf, from + 1, end);
    }
  }

  lemma FramedItem(frame: seq<byte>, payload: seq<byte>)
    requires frame == [IAC, SB] + payload + [IAC, SE] && FindSe(frame, 2) == Some(|payload| + 2)
    ensures Next(frame) == Some((Subnegotiation(payload), |frame|))
  {
    assert frame[2..|payload| + 2] == payload;
  }

  lemma FrameIsOneItem(payload: seq<byte>)
    requires IAC !in payload
    ensures var frame := [IAC, SB] + payload + [IAC, SE];
            Next(frame) == Some((Subnegotiation(payload), |frame|))
  {
    var frame := [IAC, SB] + payload + [IAC, SE];
    assert forall i :: 2 <= i < |payload| + 2 ==> frame[i] == payload[i - 2];
    FirstIacEnds(frame, 2, |payload| + 2);
    FramedItem(frame, payload);
  }

  /** Asked for its terminal type (24, SEND is 1) a session sends one subnegotiation (IS is 0) with the
      name; any other subnegotiation, plain byte or command makes it send nothing. */
  lemma TerminalTypeIsSent(s: Session, item: Item) returns (added: seq<byte>)
    requires !item.Option_?
    ensures Act(s, item).sent == s.sent + added
    ensures item.Subnegotiation? && [24, 1] <= item.payload ==>
              && Next(added) == Some((Subnegotiation([24, 0] + TERMINAL_NAME), |added|))
              && Spells(TERMINAL_NAME, "xterm-256color")
    ensures !(item.Subnegotiation? && [24, 1] <= item.payload) ==> added == []
  {
    added := [];
    assert s.sent + [] == s.sent;
    if item.Subnegotiation? && [24, 1] <= item.payload {
      added := [IAC, SB, OPT_TTYPE, TTYPE_IS] + TERMINAL_NAME + [IAC, SE];
      assert added == [IAC, SB] + ([24, 0] + TERMINAL_NAME) + [IAC, SE];
      FrameIsOneItem([24, 0] + TERMINAL_NAME);
      assert item.payload[0] == 24 && item.payload[1] == 1;
    } else if item.Subnegotiation? && |item.payload| >= 2 {
      assert [item.payload[0], item.payload[1]] == item.payload[..2];
    }
  }

  lemma {:induction false} LowByteOfEach(values: seq<int>)
    ensures |LowBytes(values)| == |values|
    ensures forall i :: 0 <= i < |values| ==> LowBytes(values)[i] == LowByte(values[i])
  {
    if values != [] {
      LowByteOfEach(values[1..]);
    }
  }

  /** NAWS is 31; each size has its high byte first. */
  predicate SaysSize(bytes: seq<byte>, cols: int, rows: int) {
    |bytes| == 5 && bytes[0] == 31
    && (bytes[1] as int) * 256 + (bytes[2] as int) == cols && (bytes[3] as int) * 256 + (bytes[4] as int) == rows
  }

  lemma SizeBytes(cols: int, rows: int)
    requires 0 <= cols < 65536 && 0 <= rows < 65536
    ensures SaysSize(LowBytes(SizeValues(cols, rows)), cols, rows)
  {
    LowByteOfEach(SizeValues(cols, rows));
  }

  /** A receiver that undoubles the frame finds the two sizes in it. */
  lemma SizeIsRead(cols: int, rows: int)
    requires 0 <= cols < 65536 && 0 <= rows < 65536
    ensures var next := Next(WindowSize(cols, rows));
            && next.Some? && next.value.0.Subnegotiation? && next.value.1 == |WindowSize(cols, rows)|
            && Undouble(next.value.0.payload).Some? && SaysSize(Undouble(next.value.0.payload).value, cols, rows)
  {
    WindowSizeExactly(cols, rows);
    SizeBytes(cols, rows);
  }
}
