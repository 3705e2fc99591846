/** One client connection of a local tunnel. */
module TunnelConnection {
  // The connection starts on `nc` behind the login script and may switch once to a direct-tcpip channel.
  // The environment (socket, SSH library, timer) is a sequence of events; `Enabled` says which events
  // those libraries can deliver.

  import opened Basics
  import R = UpstreamRelay
  import S = MarkerStripper

  /** Whether the destination may also be reached from the SSH endpoint. */
  datatype Route = Script | ScriptThenNative

  datatype ExecPhase = ExecOpening | ExecOpen | ExecGone

  datatype NativePhase = NotTried | NativeOpening | NativeOpen | NativeOver | NativeDropped

  /** What an observer of the wires has seen; no decision depends on it. */
  datatype Observed = Observed(
    sent: seq<byte>,                // by the client
    scriptChunks: seq<seq<byte>>,   // by the exec channel, noise and marker included
    nativeBytes: seq<byte>,         // by the direct-tcpip channel
    sentAtAttach: seq<byte>,        // by the client, when a channel was last attached
    closedAtSwitch: bool,           // had the client gone when the switch was made?
    late: bool)                     // has the exec channel produced bytes after it was given up?

  /** The variables of the login-script closure, whether the filter is piped to the client, what that
      pipe has written, and what the filter has let through but still holds for a full socket. */
  datatype ScriptSide = ScriptSide(
    phase: ExecPhase, destroyed: bool, delivered: nat, settled: bool, piped: bool, toClient: seq<byte>,
    held: seq<byte>)

  /** The variables of the direct-tcpip closure, and what its pipe has written to the client. */
  datatype NativeSide = NativeSide(
    phase: NativePhase, settled: bool, destroyed: bool, timerArmed: bool, toClient: seq<byte>)

  /** The client's socket; `full` after a write that asks for a pause, until it has drained. */
  datatype Socket = Socket(destroyed: bool, ended: bool, closeEmitted: bool, full: bool)

  datatype Conn = Conn(
    relay: R.RelayState, strip: S.StripState, script: ScriptSide, native: NativeSide,
    socket: Socket, switches: nat, seen: Observed)

  /** `fills` says whether the last write of the event leaves the socket full. */
  datatype Event =
    | ClientData(chunk: seq<byte>) | ClientEnd | SocketClosed | SocketDrained(count: nat, fills: bool)
    | ExecOpened | ExecFailed | ScriptData(chunk: seq<byte>, fills: bool) | ScriptOver(fatal: bool)
    | NativeOpened | NativeFailed | NativeTimedOut
    | NativeData(chunk: seq<byte>) | NativeEnded | NativeErrored

  const FRESH := Conn(
    R.FRESH_RELAY, S.FRESH_STRIPPER, ScriptSide(ExecOpening, false, 0, false, false, [], []),
    NativeSide(NotTried, false, false, false, []), Socket(false, false, false, false), 0,
    Observed([], [], [], [], false, false))

  /** Nothing is written to a socket after its end, and Node ends its own side of an accepted socket
      once the peer has ended. */
  predicate ClientReads(s: Conn) {
    !s.socket.destroyed && !s.socket.ended && !s.relay.ended
  }

  /** What the socket, the SSH library and the timer can deliver next: no data after an end or on a
      destroyed native channel, each open answered once, a timer only while armed. A full socket drains
      unless it was ended or destroyed, and then takes what is held until it is full again. Bytes that
      were on their way inside the exec channel may still arrive after it was given up. */
  predicate Enabled(s: Conn, e: Event) {
    match e
    case ClientData(chunk) => chunk != [] && !s.relay.ended && !s.socket.destroyed
    case ClientEnd => !s.relay.ended && !s.socket.destroyed
    case SocketClosed => !s.socket.closeEmitted
    case ExecOpened => s.script.phase.ExecOpening?
    case ExecFailed => s.script.phase.ExecOpening?
    case SocketDrained(count, fills) =>
      ClientReads(s) && s.socket.full && count <= |s.script.held|
      && (count < |s.script.held| ==> fills) && (fills ==> count > 0)
    case ScriptData(chunk, _) => chunk != [] && s.script.phase.ExecOpen?
    case ScriptOver(_) => s.script.phase.ExecOpen?
    case NativeOpened => s.native.phase.NativeOpening?
    case NativeFailed => s.native.phase.NativeOpening?
    case NativeTimedOut => s.native.timerArmed
    case NativeData(chunk) => chunk != [] && s.native.phase.NativeOpen? && !s.native.destroyed
    case NativeEnded => s.native.phase.NativeOpen?
    case NativeErrored => s.native.phase.NativeOpen?
  }

  function RelayStep(s: Conn, e: R.RelayEvent): Conn {
    s.(relay := R.Step(s.relay, e))
  }

  function AttachRelay(s: Conn): Conn {
    RelayStep(s, R.Attach).(seen := s.seen.(sentAtAttach := s.seen.sent))
  }

  /** Opens the direct-tcpip channel and arms its timer. */
  function Switch(s: Conn): Conn {
    s.(native := s.native.(phase := NativeOpening, timerArmed := true), switches := s.switches + 1,
       seen := s.seen.(closedAtSwitch := s.socket.closeEmitted))
  }

  function DestroySocket(s: Conn): Conn {
    s.(socket := s.socket.(destroyed := true))
  }

  function EndSocket(s: Conn): Conn {
    s.(socket := s.socket.(ended := true))
  }

  /** The script route is over: end the client if it got anything, else switch, which cuts the pipe of
      the filter, or give up. */
  function Finish(s: Conn, route: Route, fatal: bool): Conn {
    if s.script.settled then s
    else if s.script.delivered > 0 then
      var t := s.(script := s.script.(settled := true));
      if fatal then DestroySocket(t) else EndSocket(t)
    else
      var t := s.(script := s.script.(settled := true, destroyed := true));
      if route.ScriptThenNative? && R.Replayable(s.relay)
      then Switch(RelayStep(t.(script := t.script.(piped := false)), R.Detach))
      else DestroySocket(t)
  }

  /** The exec channel was settled or destroyed; what it still produces is late. */
  predicate GivenUp(s: Conn) {
    s.script.settled || s.script.destroyed
  }

  /** The chunk has gone through the filter; nothing is made of the output yet. */
  function Filtered(s: Conn, marker: seq<byte>, chunk: seq<byte>): Conn {
    s.(strip := S.Step(s.strip, marker, chunk), seen := s.seen.(
      scriptChunks := s.seen.scriptChunks + [chunk],
      late := s.seen.late || GivenUp(s)))
  }

  /** The pipe writes to the client, and the listener counts and confirms. */
  function Deliver(s: Conn, bytes: seq<byte>, fills: bool): Conn {
    var t := RelayStep(s, R.Confirm).(script := s.script.(delivered := s.script.delivered + |bytes|));
    if ClientReads(s)
    then t.(script := t.script.(toClient := t.script.toClient + bytes), socket := t.socket.(full := fills))
    else t
  }

  /** What the filter lets through waits behind a full socket: not written, not counted. */
  function OnPassed(s: Conn, bytes: seq<byte>, fills: bool): Conn {
    if s.socket.full then s.(script := s.script.(held := s.script.held + bytes))
    else Deliver(s, bytes, fills)
  }

  function OnDrained(s: Conn, count: nat, fills: bool): Conn
    requires count <= |s.script.held|
  {
    var held := s.script.held;
    Deliver(s.(script := s.script.(held := held[count..])), held[..count], fills)
  }

  /** A filter that failed takes no more, and one whose pipe was cut is paused: neither counts or
      delivers anything. */
  function OnScriptData(s: Conn, route: Route, marker: seq<byte>, chunk: seq<byte>, fills: bool): Conn {
    var t := Filtered(s, marker, chunk);
    if s.strip.failed then t
    else if t.strip.failed then Finish(t, route, false)
    else if !s.script.piped || |t.strip.out| <= |s.strip.out| then t
    else OnPassed(t, t.strip.out[|s.strip.out|..], fills)
  }

  function OnSocketClosed(s: Conn): Conn {
    s.(socket := s.socket.(closeEmitted := true, destroyed := true),
       script := s.script.(destroyed := s.script.destroyed || s.script.phase.ExecOpen?),
       native := if s.native.phase.NativeOpen? then s.native.(destroyed := true)
                 else if s.native.phase.NativeOpening? && !s.native.settled
                 then s.native.(settled := true, timerArmed := false)
                 else s.native)
  }

  function OnClientBytes(s: Conn, chunk: seq<byte>): Conn {
    RelayStep(s, R.Data(chunk)).(seen := s.seen.(sent := s.seen.sent + chunk))
  }

  function OnExecOpen(s: Conn): Conn {
    if s.socket.destroyed then s.(script := s.script.(phase := ExecGone))
    else AttachRelay(s).(script := s.script.(phase := ExecOpen, piped := true))
  }

  function OnExecFail(s: Conn, route: Route): Conn {
    var t := s.(script := s.script.(phase := ExecGone));
    if route.ScriptThenNative? then Switch(t) else DestroySocket(t)
  }

  function OnNativeOpen(s: Conn): Conn {
    if s.native.settled then s.(native := s.native.(phase := NativeDropped, timerArmed := false))
    else AttachRelay(s).(native :=
      s.native.(phase := NativeOpen, settled := true, timerArmed := false))
  }

  /** The open failed, or took longer than the timer allows: give the client up. */
  function GiveUpNative(s: Conn, phase: NativePhase): Conn {
    var t := s.(native := s.native.(phase := phase, settled := true, timerArmed := false));
    if s.native.settled then t else DestroySocket(t)
  }

  function OnNativeBytes(s: Conn, chunk: seq<byte>): Conn {
    s.(native := if ClientReads(s) then s.native.(toClient := s.native.toClient + chunk)
                 else s.native,
       seen := s.seen.(nativeBytes := s.seen.nativeBytes + chunk))
  }

  function OnNativeOver(s: Conn, failed: bool): Conn {
    var t := s.(native := s.native.(phase := NativeOver));
    if failed then DestroySocket(t) else EndSocket(t)
  }

  function Step(s: Conn, route: Route, marker: seq<byte>, e: Event): Conn {
    match e
    case SocketDrained(count, fills) => if count <= |s.script.held| then OnDrained(s, count, fills) else s
    case ClientData(chunk) => OnClientBytes(s, chunk)
    case ClientEnd => RelayStep(s, R.End)
    case SocketClosed => OnSocketClosed(s)
    case ExecOpened => OnExecOpen(s)
    case ExecFailed => OnExecFail(s, route)
    case ScriptData(chunk, fills) => OnScriptData(s, route, marker, chunk, fills)
    case ScriptOver(fatal) => Finish(s, route, fatal)
    case NativeOpened => OnNativeOpen(s)
    case NativeFailed => GiveUpNative(s, NativeDropped)
    case NativeTimedOut => GiveUpNative(s, s.native.phase)
    case NativeData(chunk) => OnNativeBytes(s, chunk)
    case NativeEnded => OnNativeOver(s, false)
    case NativeErrored => OnNativeOver(s, true)
  }

  function After(route: Route, marker: seq<byte>, events: seq<Event>, n: nat): Conn
    requires n <= |events|
  {
    if n == 0 then FRESH else Step(After(route, marker, events, n - 1), route, marker, events[n - 1])
  }

  ghost predicate ValidRun(route: Route, marker: seq<byte>, events: seq<Event>, n: nat)
    requires n <= |events|
  {
    n == 0 || (ValidRun(route, marker, events, n - 1)
               && Enabled(After(route, marker, events, n - 1), events[n - 1]))
  }

  /** Which phases of the two routes can meet. */
  ghost predicate PhasesFit(s: Conn, route: Route) {
    && (s.native.phase.NotTried? <==> s.switches == 0)
    && (s.native.phase.NotTried? ==> !s.native.settled)
    && s.switches <= 1
    && (s.switches == 1 ==> route.ScriptThenNative? && !s.script.phase.ExecOpening?)
    && (s.switches == 1 && s.script.phase.ExecOpen? ==> s.script.settled)
    && (!s.script.phase.ExecOpen? ==> !s.script.settled)
    && (s.native.timerArmed ==> s.native.phase.NativeOpening? && !s.native.settled)
    && (s.native.phase.NativeOpening? && !s.native.settled ==> s.native.timerArmed)
    && (s.native.phase.NativeOpen? ==> s.native.settled)
  }

  /** Who may have destroyed the socket. */
  ghost predicate SocketFits(s: Conn) {
    && (s.socket.closeEmitted ==> s.socket.destroyed)
    && (s.script.phase.ExecOpening? || (s.script.phase.ExecOpen? && !s.script.settled) ==>
          (s.socket.destroyed ==> s.socket.closeEmitted))
    && (s.script.phase.ExecOpen? && !s.script.settled && s.socket.closeEmitted ==> s.script.destroyed)
    && (s.socket.ended ==> s.native.phase.NativeOver? || (s.switches == 0 && s.script.settled))
    && (s.script.piped && GivenUp(s) ==> s.socket.destroyed || s.socket.ended)
    && (s.seen.late ==> GivenUp(s))
    && (s.script.phase.ExecOpening? ==> !GivenUp(s))
    && (s.seen.closedAtSwitch ==> s.socket.closeEmitted && s.switches == 1)
    && (s.native.phase.NativeOpening? && !s.native.settled ==>
          (s.socket.destroyed <==> s.seen.closedAtSwitch))
    && (s.native.phase.NativeOpen? && !s.native.destroyed ==>
          (s.socket.destroyed <==> s.seen.closedAtSwitch))
  }

  predicate FromScriptSide(e: Event) {
    e.ExecOpened? || e.ExecFailed? || e.ScriptData? || e.ScriptOver? || e.SocketDrained?
  }

  /** All that bytes on their way out of the filter can change. */
  ghost predicate Onward(s: Conn, t: Conn) {
    && t == s.(relay := t.relay, socket := s.socket.(full := t.socket.full), script := s.script.(
                 delivered := t.script.delivered, toClient := t.script.toClient, held := t.script.held))
    && (t.relay == s.relay || t.relay == R.Step(s.relay, R.Confirm))
  }

  lemma DeliverIsOnward(s: Conn, bytes: seq<byte>, fills: bool)
    ensures Onward(s, Deliver(s, bytes, fills))
  {
  }

  lemma DrainedIsOnward(s: Conn, count: nat, fills: bool)
    requires count <= |s.script.held|
    ensures Onward(s, OnDrained(s, count, fills))
  {
    var t := s.(script := s.script.(held := s.script.held[count..]));
    DeliverIsOnward(t, s.script.held[..count], fills);
  }

  /** A chunk of the exec channel finishes the route, or sends bytes onward, or neither. */
  lemma ScriptDataIsOnward(s: Conn, route: Route, marker: seq<byte>, chunk: seq<byte>, fills: bool)
    ensures var t, u := Filtered(s, marker, chunk), OnScriptData(s, route, marker, chunk, fills);
            u == Finish(t, route, false) || Onward(t, u)
  {
    var t := Filtered(s, marker, chunk);
    if |t.strip.out| > |s.strip.out| {
      DeliverIsOnward(t, t.strip.out[|s.strip.out|..], fills);
    }
  }

  lemma OnwardKeepsPhases(s: Conn, t: Conn, route: Route)
    requires Onward(s, t) && PhasesFit(s, route) && SocketFits(s)
    ensures PhasesFit(t, route) && SocketFits(t)
  {
  }

  lemma FinishKeepsPhases(s: Conn, route: Route, fatal: bool)
    requires PhasesFit(s, route) && SocketFits(s) && s.script.phase.ExecOpen?
    ensures PhasesFit(Finish(s, route, fatal), route) && SocketFits(Finish(s, route, fatal))
  {
  }

  lemma ScriptStepKeepsPhases(s: Conn, route: Route, marker: seq<byte>, e: Event)
    requires FromScriptSide(e) && Enabled(s, e) && PhasesFit(s, route) && SocketFits(s)
    ensures PhasesFit(Step(s, route, marker, e), route) && SocketFits(Step(s, route, marker, e))
  {
    match e
    case ScriptData(chunk, fills) =>
      var t, u := Filtered(s, marker, chunk), OnScriptData(s, route, marker, chunk, fills);
      ScriptDataIsOnward(s, route, marker, chunk, fills);
      assert PhasesFit(t, route) && SocketFits(t);
      if u == Finish(t, route, false) {
        FinishKeepsPhases(t, route, false);
      } else {
        OnwardKeepsPhases(t, u, route);
      }
    case SocketDrained(count, fills) =>
      DrainedIsOnward(s, count, fills);
      OnwardKeepsPhases(s, OnDrained(s, count, fills), route);
    case ScriptOver(fatal) => FinishKeepsPhases(s, route, fatal);
    case ExecOpened =>
    case ExecFailed =>
  }

  lemma OtherStepKeepsPhases(s: Conn, route: Route, marker: seq<byte>, e: Event)
    requires !FromScriptSide(e) && Enabled(s, e) && PhasesFit(s, route) && SocketFits(s)
    ensures PhasesFit(Step(s, route, marker, e), route) && SocketFits(Step(s, route, marker, e))
  {
    match e
    case SocketClosed =>
    case NativeOpened =>
    case NativeFailed =>
    case NativeTimedOut =>
    case NativeEnded =>
    case NativeErrored =>
    case _ =>
  }

  /** Written and held, in that order, are what the marker filter let through while it was piped; only
      a full socket makes it hold anything. */
  ghost predicate WrittenFits(s: Conn) {
    && s.script.toClient + s.script.held <= s.strip.out
    && (s.socket.full || (!s.relay.ended && !s.seen.late) ==> s.script.toClient + s.script.held == s.strip.out)
    && (s.script.held != [] ==> s.socket.full)
    && (s.socket.full ==> s.script.delivered > 0)
  }

  /** The script route, its filter and its pipe. */
  ghost predicate ScriptFits(s: Conn, marker: seq<byte>) {
    && WrittenFits(s)
    && s.strip == S.After(s.seen.scriptChunks, marker, |s.seen.scriptChunks|)
    && (s.script.piped ==> s.script.phase.ExecOpen? && s.script.delivered + |s.script.held| == |s.strip.out|)
    && (!s.script.piped ==> s.script.delivered == 0 && s.script.toClient == [] && s.script.held == [])
    && (s.script.phase.ExecOpen? && !s.script.settled ==> s.script.piped)
    && (s.relay.confirmed <==> s.script.delivered > 0)
    && (s.switches == 1 ==> !s.script.piped)
    && (s.script.phase.ExecOpening? ==> s.seen.scriptChunks == [])
  }

  lemma FinishKeepsScript(s: Conn, route: Route, marker: seq<byte>, fatal: bool)
    requires ScriptFits(s, marker)
    ensures ScriptFits(Finish(s, route, fatal), marker)
  {
  }

  lemma StripGoesOn(chunks: seq<seq<byte>>, chunk: seq<byte>, marker: seq<byte>)
    ensures var before := S.After(chunks, marker, |chunks|);
            var after := S.After(chunks + [chunk], marker, |chunks + [chunk]|);
            after == S.Step(before, marker, chunk) && before.out <= after.out
  {
    S.PrefixDecides(chunks, chunks + [chunk], marker, |chunks|);
  }

  /** Bytes behind those written and held before: taken or held. */
  lemma PassedFits(s: Conn, before: seq<byte>, bytes: seq<byte>, fills: bool)
    requires s.strip.out == before + bytes && bytes != []
    requires s.script.toClient + s.script.held <= before
    requires s.socket.full || (!s.relay.ended && !s.seen.late) ==> s.script.toClient + s.script.held == before
    requires !s.relay.ended ==> (ClientReads(s) <==> !s.seen.late)
    requires (s.script.held != [] ==> s.socket.full) && (s.socket.full ==> s.script.delivered > 0)
    ensures WrittenFits(OnPassed(s, bytes, fills))
  {
    var w, h := s.script.toClient, s.script.held;
    assert w + (h + bytes) == (w + h) + bytes;
    assert w + [] == w && w + bytes + [] == w + bytes;
  }

  /** The rest of the script route after bytes were passed. */
  lemma PassedCounts(s: Conn, before: seq<byte>, bytes: seq<byte>, fills: bool, marker: seq<byte>)
    requires s.strip == S.After(s.seen.scriptChunks, marker, |s.seen.scriptChunks|)
    requires s.strip.out == before + bytes && bytes != []
    requires s.script.piped && s.script.phase.ExecOpen? && s.script.delivered + |s.script.held| == |before|
    requires (s.relay.confirmed <==> s.script.delivered > 0) && s.switches != 1
    requires WrittenFits(OnPassed(s, bytes, fills)) && (s.socket.full ==> s.script.delivered > 0)
    ensures ScriptFits(OnPassed(s, bytes, fills), marker)
  {
  }

  /** A piped filter writes to an open socket, unless the exec channel was given up. */
  lemma FilteredPasses(s: Conn, route: Route, marker: seq<byte>, chunk: seq<byte>)
    requires PhasesFit(s, route) && SocketFits(s) && ScriptFits(s, marker) && s.script.piped && !s.relay.ended
    ensures ClientReads(Filtered(s, marker, chunk)) <==> !Filtered(s, marker, chunk).seen.late
  {
  }

  lemma PassedKeepsScript(s: Conn, route: Route, marker: seq<byte>, chunk: seq<byte>, fills: bool)
    requires Enabled(s, ScriptData(chunk, fills)) && PhasesFit(s, route) && SocketFits(s) && ScriptFits(s, marker)
    requires s.script.piped && |S.Step(s.strip, marker, chunk).out| > |s.strip.out|
    ensures ScriptFits(OnScriptData(s, route, marker, chunk, fills), marker)
  {
    var t := Filtered(s, marker, chunk);
    var bytes := t.strip.out[|s.strip.out|..];
    StripGoesOn(s.seen.scriptChunks, chunk, marker);
    PrefixAndRest(s.strip.out, t.strip.out);
    if !s.relay.ended {
      FilteredPasses(s, route, marker, chunk);
    }
    PassedFits(t, s.strip.out, bytes, fills);
    PassedCounts(t, s.strip.out, bytes, fills, marker);
    assert OnScriptData(s, route, marker, chunk, fills) == OnPassed(t, bytes, fills);
  }

  lemma ScriptDataKeepsScript(s: Conn, route: Route, marker: seq<byte>, chunk: seq<byte>, fills: bool)
    requires Enabled(s, ScriptData(chunk, fills)) && PhasesFit(s, route) && SocketFits(s)
    requires ScriptFits(s, marker)
    ensures ScriptFits(OnScriptData(s, route, marker, chunk, fills), marker)
  {
    var t := Filtered(s, marker, chunk);
    StripGoesOn(s.seen.scriptChunks, chunk, marker);
    if s.script.piped && |t.strip.out| > |s.strip.out| {
      PassedKeepsScript(s, route, marker, chunk, fills);
    } else {
      assert s.script.piped ==> t.strip.out == s.strip.out;
      assert ScriptFits(t, marker);
      FinishKeepsScript(t, route, marker, false);
    }
  }

  lemma DrainedKeepsScript(s: Conn, marker: seq<byte>, count: nat, fills: bool)
    requires Enabled(s, SocketDrained(count, fills)) && ScriptFits(s, marker)
    ensures ScriptFits(OnDrained(s, count, fills), marker)
  {
    var w, h := s.script.toClient, s.script.held;
    assert w + h[..count] + h[count..] == w + h by {
      assert h[..count] + h[count..] == h;
    }
  }

  lemma StepKeepsScript(s: Conn, route: Route, marker: seq<byte>, e: Event)
    requires Enabled(s, e) && PhasesFit(s, route) && SocketFits(s) && ScriptFits(s, marker)
    ensures ScriptFits(Step(s, route, marker, e), marker)
  {
    match e
    case ScriptData(chunk, fills) => ScriptDataKeepsScript(s, route, marker, chunk, fills);
    case SocketDrained(count, fills) => DrainedKeepsScript(s, marker, count, fills);
    case ScriptOver(fatal) => FinishKeepsScript(s, route, marker, fatal);
    case ExecFailed =>
    case _ =>
  }

  /** The bytes the attached channel is owed: the whole stream if the copy was complete when it was
      attached, only the later bytes otherwise. */
  function Owed(seen: Observed): seq<byte> {
    if |seen.sentAtAttach| <= R.REPLAY_CAP_BYTES || |seen.sent| < |seen.sentAtAttach| then seen.sent
    else seen.sent[|seen.sentAtAttach|..]
  }

  ghost predicate UpstreamFits(s: Conn) {
    && R.CopyMatches(s.relay, s.seen.sent)
    && s.seen.sentAtAttach <= s.seen.sent
    && (s.relay.target.Some? <==>
          (s.script.phase.ExecOpen? && s.switches == 0) || s.native.phase.NativeOpen? || s.native.phase.NativeOver?)
    && (s.relay.target.Some? ==> s.relay.target.value == R.Wire(Owed(s.seen), s.relay.ended))
  }

  lemma RelayStepKeepsCopy(s: Conn, e: R.RelayEvent)
    requires R.CopyMatches(s.relay, s.seen.sent) && !e.Data?
    ensures R.CopyMatches(RelayStep(s, e).relay, s.seen.sent)
  {
    R.StepKeepsCopy(s.relay, e, s.seen.sent);
    assert s.seen.sent + [] == s.seen.sent;
  }

  lemma AttachOwes(s: Conn)
    requires R.CopyMatches(s.relay, s.seen.sent) && !s.relay.confirmed
    ensures var t := AttachRelay(s);
            && R.CopyMatches(t.relay, t.seen.sent)
            && t.relay.target == Some(R.Wire(Owed(t.seen), t.relay.ended))
  {
    assert s.seen.sent[|s.seen.sent|..] == [];
  }

  lemma FinishKeepsUpstream(s: Conn, route: Route, fatal: bool)
    requires s.script.phase.ExecOpen? && PhasesFit(s, route) && UpstreamFits(s)
    ensures UpstreamFits(Finish(s, route, fatal))
  {
    RelayStepKeepsCopy(s, R.Detach);
  }

  lemma ClientDataKeepsUpstream(s: Conn, chunk: seq<byte>)
    requires UpstreamFits(s)
    ensures UpstreamFits(Step(s, Script, [], ClientData(chunk)))
  {
    R.StepKeepsCopy(s.relay, R.Data(chunk), s.seen.sent);
    var n := |s.seen.sentAtAttach|;
    assert (s.seen.sent + chunk)[n..] == s.seen.sent[n..] + chunk;
  }

  lemma OnwardKeepsUpstream(s: Conn, t: Conn)
    requires Onward(s, t) && UpstreamFits(s)
    ensures UpstreamFits(t)
  {
    RelayStepKeepsCopy(s, R.Confirm);
  }

  lemma ScriptDataKeepsUpstream(s: Conn, route: Route, marker: seq<byte>, chunk: seq<byte>, fills: bool)
    requires s.script.phase.ExecOpen? && PhasesFit(s, route) && UpstreamFits(s)
    ensures UpstreamFits(OnScriptData(s, route, marker, chunk, fills))
  {
    var t, u := Filtered(s, marker, chunk), OnScriptData(s, route, marker, chunk, fills);
    ScriptDataIsOnward(s, route, marker, chunk, fills);
    assert PhasesFit(t, route) && UpstreamFits(t);
    if u == Finish(t, route, false) {
      FinishKeepsUpstream(t, route, false);
    } else {
      OnwardKeepsUpstream(t, u);
    }
  }

  lemma OpenKeepsUpstream(s: Conn, route: Route, marker: seq<byte>, e: Event)
    requires e.ExecOpened? || e.NativeOpened?
    requires Enabled(s, e) && PhasesFit(s, route) && ScriptFits(s, marker) && UpstreamFits(s)
    ensures UpstreamFits(Step(s, route, marker, e))
  {
    AttachOwes(s);
  }

  lemma OtherKeepsUpstream(s: Conn, route: Route, marker: seq<byte>, e: Event)
    requires !e.ClientData? && !e.ScriptData? && !e.SocketDrained? && !e.ScriptOver? && !e.ExecOpened?
    requires !e.NativeOpened?
    requires Enabled(s, e) && PhasesFit(s, route) && UpstreamFits(s)
    ensures UpstreamFits(Step(s, route, marker, e))
  {
    RelayStepKeepsCopy(s, R.End);
  }

  lemma StepKeepsUpstream(s: Conn, route: Route, marker: seq<byte>, e: Event)
    requires Enabled(s, e) && PhasesFit(s, route) && ScriptFits(s, marker) && UpstreamFits(s)
    ensures UpstreamFits(Step(s, route, marker, e))
  {
    match e
    case ClientData(chunk) => ClientDataKeepsUpstream(s, chunk);
    case ExecOpened => OpenKeepsUpstream(s, route, marker, e);
    case NativeOpened => OpenKeepsUpstream(s, route, marker, e);
    case ScriptOver(fatal) => FinishKeepsUpstream(s, route, fatal);
    case ScriptData(chunk, fills) => ScriptDataKeepsUpstream(s, route, marker, chunk, fills);
    case SocketDrained(count, fills) =>
      DrainedIsOnward(s, count, fills);
      OnwardKeepsUpstream(s, OnDrained(s, count, fills));
    case _ => OtherKeepsUpstream(s, route, marker, e);
  }

  /** What the client got from the native channel is what that channel delivered. */
  ghost predicate NativeFits(s: Conn) {
    && s.native.toClient <= s.seen.nativeBytes
    && (!s.native.phase.NativeOpen? && !s.native.phase.NativeOver? ==> s.seen.nativeBytes == [])
    && (s.seen.closedAtSwitch ==> s.native.toClient == [])
    && (!s.relay.ended && !s.seen.closedAtSwitch ==> s.native.toClient == s.seen.nativeBytes)
  }

  lemma OnwardKeepsNative(s: Conn, t: Conn)
    requires Onward(s, t) && NativeFits(s)
    ensures NativeFits(t)
  {
  }

  lemma FinishKeepsNative(s: Conn, route: Route, fatal: bool)
    requires s.script.phase.ExecOpen? && PhasesFit(s, route) && SocketFits(s) && NativeFits(s)
    ensures NativeFits(Finish(s, route, fatal))
  {
  }

  lemma ScriptStepKeepsNative(s: Conn, route: Route, marker: seq<byte>, e: Event)
    requires FromScriptSide(e) && Enabled(s, e) && PhasesFit(s, route) && SocketFits(s) && NativeFits(s)
    ensures NativeFits(Step(s, route, marker, e))
  {
    match e
    case ScriptData(chunk, fills) =>
      var t, u := Filtered(s, marker, chunk), OnScriptData(s, route, marker, chunk, fills);
      ScriptDataIsOnward(s, route, marker, chunk, fills);
      if u == Finish(t, route, false) {
        FinishKeepsNative(t, route, false);
      } else {
        OnwardKeepsNative(t, u);
      }
    case SocketDrained(count, fills) =>
      DrainedIsOnward(s, count, fills);
      OnwardKeepsNative(s, OnDrained(s, count, fills));
    case ScriptOver(fatal) => FinishKeepsNative(s, route, fatal);
    case ExecFailed =>
    case ExecOpened =>
  }

  lemma OtherStepKeepsNative(s: Conn, route: Route, marker: seq<byte>, e: Event)
    requires !FromScriptSide(e) && Enabled(s, e) && PhasesFit(s, route) && SocketFits(s) && NativeFits(s)
    ensures NativeFits(Step(s, route, marker, e))
  {
    match e
    case NativeData(chunk) =>
    case NativeOpened =>
    case NativeEnded =>
    case SocketClosed =>
    case _ =>
  }

  ghost predicate Inv(s: Conn, route: Route, marker: seq<byte>) {
    && PhasesFit(s, route) && SocketFits(s) && ScriptFits(s, marker)
    && UpstreamFits(s) && NativeFits(s)
  }

  lemma FreshFits(route: Route, marker: seq<byte>)
    ensures Inv(FRESH, route, marker)
  {
  }

  lemma {:induction false} RunKeepsInv(route: Route, marker: seq<byte>, events: seq<Event>, n: nat)
    requires n <= |events| && ValidRun(route, marker, events, n)
    ensures Inv(After(route, marker, events, n), route, marker)
  {
    if n == 0 {
      FreshFits(route, marker);
    } else {
      RunKeepsInv(route, marker, events, n - 1);
      var s := After(route, marker, events, n - 1);
      assert Enabled(s, events[n - 1]);
      StepKeepsInv(s, route, marker, events[n - 1]);
    }
  }

  lemma StepKeepsInv(s: Conn, route: Route, marker: seq<byte>, e: Event)
    requires Enabled(s, e) && Inv(s, route, marker)
    ensures Inv(Step(s, route, marker, e), route, marker)
  {
    if FromScriptSide(e) {
      ScriptStepKeepsPhases(s, route, marker, e);
      ScriptStepKeepsNative(s, route, marker, e);
    } else {
      OtherStepKeepsPhases(s, route, marker, e);
      OtherStepKeepsNative(s, route, marker, e);
    }
    StepKeepsScript(s, route, marker, e);
    StepKeepsUpstream(s, route, marker, e);
  }

  // ---- Laws of every run ----

  /** The client gets bytes of one route only; the switch happens at most once, only on the route
      that allows it, and never once a byte of the script route was delivered. Bytes of the exec channel
      that come after the switch meet a pipe that was cut. */
  lemma SingleRoute(route: Route, marker: seq<byte>, events: seq<Event>, n: nat)
    requires n <= |events| && ValidRun(route, marker, events, n)
    ensures var s := After(route, marker, events, n);
            && (s.script.toClient == [] || s.native.toClient == [])
            && s.switches <= 1
            && (s.switches == 1 ==>
                  route.ScriptThenNative? && s.script.delivered == 0 && s.script.toClient == [] && !s.script.piped)
            && (s.native.toClient != [] ==> s.switches == 1)
  {
    RunKeepsInv(route, marker, events, n);
  }

  lemma SwitchStepIsLegal(s: Conn, route: Route, marker: seq<byte>, e: Event)
    requires Enabled(s, e) && Inv(s, route, marker)
    requires Step(s, route, marker, e).switches != s.switches
    ensures route.ScriptThenNative? && s.switches == 0 && s.script.delivered == 0
    ensures e.ExecFailed? || e.ScriptOver? || e.ScriptData?
    ensures !e.ExecFailed? ==> R.Replayable(s.relay)
  {
  }

  /** The step that switches has seen no byte from the destination; unless the exec channel failed
      to open, the relay still holds everything the client sent. */
  lemma SwitchIsLegal(route: Route, marker: seq<byte>, events: seq<Event>, n: nat)
    requires n < |events| && ValidRun(route, marker, events, n + 1)
    requires After(route, marker, events, n + 1).switches != After(route, marker, events, n).switches
    ensures var s := After(route, marker, events, n);
            && route.ScriptThenNative? && s.switches == 0 && s.script.delivered == 0
            && (events[n].ExecFailed? || events[n].ScriptOver? || events[n].ScriptData?)
            && (!events[n].ExecFailed? ==> Flatten(s.relay.replay) == s.seen.sent)
  {
    RunKeepsInv(route, marker, events, n);
    SwitchStepIsLegal(After(route, marker, events, n), route, marker, events[n]);
  }

  /** What is meant for the client out of what the exec channel has produced: the bytes after the first
      marker, nothing if the filter gave up. */
  ghost function Clean(s: Conn, marker: seq<byte>): seq<byte> {
    if s.strip.failed then []
    else S.AfterMarker(FirstChunks(s.seen.scriptChunks, |s.seen.scriptChunks|), marker)
  }

  lemma CleanIsLetThrough(s: Conn, marker: seq<byte>)
    requires ScriptFits(s, marker)
    ensures s.strip.out == Clean(s, marker)
  {
    S.StripperMeetsSpec(s.seen.scriptChunks, marker, |s.seen.scriptChunks|);
  }

  /** As long as the client keeps reading, what it has got and what the filter holds for it are exactly
      the bytes after the first marker of what the exec channel produced, and it has exactly the bytes
      of the native channel unless it had already gone at the switch. A client that stopped reading, or
      an exec channel that still produces bytes after it was given up, leaves it with a prefix. */
  lemma ClientGetsTheRoute(route: Route, marker: seq<byte>, events: seq<Event>, n: nat)
    requires n <= |events| && ValidRun(route, marker, events, n)
    ensures var s := After(route, marker, events, n);
            && s.script.toClient + s.script.held <= Clean(s, marker)
            && (!s.relay.ended && !s.seen.late ==> s.script.toClient + s.script.held == Clean(s, marker))
            && (s.script.held != [] ==> s.socket.full)
            && s.native.toClient <= s.seen.nativeBytes
            && (!s.relay.ended && !s.seen.closedAtSwitch ==> s.native.toClient == s.seen.nativeBytes)
  {
    RunKeepsInv(route, marker, events, n);
    CleanIsLetThrough(After(route, marker, events, n), marker);
  }

  lemma {:induction false} ValidBefore(route: Route, marker: seq<byte>, events: seq<Event>, k: nat, n: nat)
    requires k <= n <= |events| && ValidRun(route, marker, events, n)
    ensures ValidRun(route, marker, events, k)
  {
    if k < n {
      ValidBefore(route, marker, events, k, n - 1);
    }
  }

  /** Nothing is written to an ended socket any more. */
  lemma EndedStaysEnded(s: Conn, route: Route, marker: seq<byte>, e: Event)
    requires Enabled(s, e) && s.socket.ended
    ensures Step(s, route, marker, e).socket.ended
    ensures Step(s, route, marker, e).script.toClient == s.script.toClient
  {
    match e
    case ScriptData(_, _) =>
    case ScriptOver(_) =>
    case SocketClosed =>
    case _ =>
  }

  /** The exec channel ends, for the first time and normally, with a client that reads and has got
      something. */
  ghost predicate EndsNormally(s: Conn, e: Event) {
    e == ScriptOver(false) && s.script.phase.ExecOpen? && !s.script.settled && s.script.delivered > 0
    && ClientReads(s)
  }

  lemma EndFreezesTheRoute(s: Conn, route: Route, marker: seq<byte>, e: Event)
    requires EndsNormally(s, e)
    ensures Step(s, route, marker, e) == EndSocket(s.(script := s.script.(settled := true)))
  {
  }

  /** The client has been sent its end, after exactly `got`. */
  ghost predicate EndedWith(s: Conn, got: seq<byte>) {
    s.socket.ended && s.script.toClient == got
  }

  lemma {:induction false} NothingAfterTheEnd(route: Route, marker: seq<byte>, events: seq<Event>, k: nat, n: nat,
                                              got: seq<byte>)
    requires k < n <= |events| && ValidRun(route, marker, events, n)
    requires EndsNormally(After(route, marker, events, k), events[k])
    requires After(route, marker, events, k).script.toClient == got
    ensures EndedWith(After(route, marker, events, n), got)
  {
    if n == k + 1 {
      EndFreezesTheRoute(After(route, marker, events, k), route, marker, events[k]);
    } else {
      NothingAfterTheEnd(route, marker, events, k, n - 1, got);
      EndedStaysEnded(After(route, marker, events, n - 1), route, marker, events[n - 1]);
    }
  }

  lemma HeldIsMissing(got: seq<byte>, held: seq<byte>, all: seq<byte>)
    requires got + held == all
    ensures got == all <==> held == []
  {
    assert |got| + |held| == |all|;
    assert held == [] ==> got + held == got;
  }

  lemma AtTheEnd(route: Route, marker: seq<byte>, events: seq<Event>, k: nat)
    requires k < |events| && ValidRun(route, marker, events, k)
    requires EndsNormally(After(route, marker, events, k), events[k])
    ensures var s := After(route, marker, events, k);
            s.script.toClient + s.script.held == Clean(s, marker)
  {
    RunKeepsInv(route, marker, events, k);
    CleanIsLetThrough(After(route, marker, events, k), marker);
  }

  /** The channel's `end` means that the filter has taken its bytes, not that the client has: a reading
      client has its whole route from then on if and only if the filter held nothing at that moment. */
  lemma WholeRouteExactly(route: Route, marker: seq<byte>, events: seq<Event>, k: nat, n: nat)
    requires k < n <= |events| && ValidRun(route, marker, events, n)
    requires EndsNormally(After(route, marker, events, k), events[k])
    ensures var s := After(route, marker, events, k);
            After(route, marker, events, n).script.toClient == Clean(s, marker) <==> s.script.held == []
  {
    var s := After(route, marker, events, k);
    ValidBefore(route, marker, events, k, n);
    AtTheEnd(route, marker, events, k);
    HeldIsMissing(s.script.toClient, s.script.held, Clean(s, marker));
    NothingAfterTheEnd(route, marker, events, k, n, s.script.toClient);
  }

  /** Upstream conservation over a whole run, switch included: the channel in use has been given the
      client's stream from its very first byte if and only if the client had sent at most the cap
      when that channel opened; the end is forwarded exactly when the client ended. */
  lemma ChannelGetsWholeStream(route: Route, marker: seq<byte>, events: seq<Event>, n: nat)
    requires n <= |events| && ValidRun(route, marker, events, n)
    ensures var s := After(route, marker, events, n);
            s.relay.target.Some? ==>
            && (s.relay.target.value.written == s.seen.sent <==>
                |s.seen.sentAtAttach| <= 262144)
            && (exists before :: s.seen.sent == before + s.relay.target.value.written)
            && (s.relay.target.value.ended <==> s.relay.ended)
  {
    RunKeepsInv(route, marker, events, n);
    var s := After(route, marker, events, n);
    if |s.seen.sentAtAttach| > R.REPLAY_CAP_BYTES {
      assert |Owed(s.seen)| < |s.seen.sent|;
      assert s.seen.sent == s.seen.sentAtAttach + Owed(s.seen);
    } else {
      assert s.seen.sent == [] + s.seen.sent;
    }
  }

  lemma Unfold(route: Route, marker: seq<byte>, events: seq<Event>, n: nat)
    requires n < |events|
    ensures After(route, marker, events, n + 1) ==
            Step(After(route, marker, events, n), route, marker, events[n])
    ensures After(route, marker, events, 0) == FRESH
    ensures ValidRun(route, marker, events, n) && Enabled(After(route, marker, events, n), events[n])
            ==> ValidRun(route, marker, events, n + 1)
  {
  }

  lemma FilteredShort(a: byte, tail: seq<byte>)
    ensures S.Step(S.FRESH_STRIPPER, [1], [1, a]) == S.StripState(true, [], false, [a])
    ensures S.Step(S.StripState(true, [], false, [a]), [1], tail) == S.StripState(true, [], false, [a] + tail)
  {
    var head: seq<byte> := [1, a];
    assert [] + head == head && head[0..1] == [1];
    assert OccursAt(head, [1], 0);
    assert head[1..] == [a] && [] + [a] == [a];
  }

  lemma SlowClientRun(a: byte, tail: seq<byte>)
    requires tail != []
    ensures var events := [ExecOpened, ScriptData([1, a], true), ScriptData(tail, false), ScriptOver(false)];
            var s := After(Script, [1], events, 3);
            && ValidRun(Script, [1], events, 4)
            && s.script.toClient == [a] && s.script.held == tail && EndsNormally(s, events[3])
  {
    var events := [ExecOpened, ScriptData([1, a], true), ScriptData(tail, false), ScriptOver(false)];
    FilteredShort(a, tail);
    assert ValidRun(Script, [1], events, 0);
    Unfold(Script, [1], events, 0);
    Unfold(Script, [1], events, 1);
    Unfold(Script, [1], events, 2);
    Unfold(Script, [1], events, 3);
  }

  /** And that does happen: the client is slower than the channel, which ends while the filter holds the
      end of the answer for the full socket; the client reads on and never gets it. */
  lemma SlowClientLosesTheEnd(a: byte, tail: seq<byte>)
    requires tail != []
    ensures var events := [ExecOpened, ScriptData([1, a], true), ScriptData(tail, false), ScriptOver(false)];
            var s := After(Script, [1], events, 4);
            && ValidRun(Script, [1], events, 4) && !s.relay.ended && !s.socket.destroyed
            && s.script.toClient == [a] && Clean(s, [1]) == [a] + tail
  {
    var events := [ExecOpened, ScriptData([1, a], true), ScriptData(tail, false), ScriptOver(false)];
    SlowClientRun(a, tail);
    AtTheEnd(Script, [1], events, 3);
    EndFreezesTheRoute(After(Script, [1], events, 3), Script, [1], events[3]);
  }

  /** The switch does lose bytes: it follows a failed exec without asking whether the copy is whole. */
  lemma SwitchAfterExecFailureCanLose()
    ensures var events := [ClientData(seq(262145, _ => 0)), ExecFailed, NativeOpened];
            var s := After(ScriptThenNative, [1], events, 3);
            && ValidRun(ScriptThenNative, [1], events, 3)
            && s.native.phase.NativeOpen? && s.relay.target == Some(R.Wire([], false)) && s.seen.sent != []
  {
    var events := [ClientData(seq(262145, _ => 0)), ExecFailed, NativeOpened];
    assert ValidRun(ScriptThenNative, [1], events, 0);
    Unfold(ScriptThenNative, [1], events, 0);
    Unfold(ScriptThenNative, [1], events, 1);
    Unfold(ScriptThenNative, [1], events, 2);
  }

  /** A native channel is opened for a client that has gone exactly when it had gone before the
      switch: `close` is emitted once, so a listener added by the switch misses it. */
  lemma OrphanNativeExactly(route: Route, marker: seq<byte>, events: seq<Event>, n: nat)
    requires n < |events| && ValidRun(route, marker, events, n + 1)
    requires events[n] == NativeOpened && After(route, marker, events, n + 1).native.phase.NativeOpen?
    ensures var s := After(route, marker, events, n);
            s.socket.closeEmitted <==> s.seen.closedAtSwitch
  {
    RunKeepsInv(route, marker, events, n);
  }

  lemma OrphanRun(hello: seq<byte>)
    requires 0 < |hello| <= 262144
    ensures var events := [ClientData(hello), ExecOpened, SocketClosed, ScriptOver(false), NativeOpened];
            var s := After(ScriptThenNative, [1], events, 4);
            && ValidRun(ScriptThenNative, [1], events, 4)
            && s.socket.closeEmitted && s.native.phase.NativeOpening? && !s.native.settled
            && !s.native.destroyed && s.seen.sent == hello
  {
    var events := [ClientData(hello), ExecOpened, SocketClosed, ScriptOver(false), NativeOpened];
    assert ValidRun(ScriptThenNative, [1], events, 0);
    Unfold(ScriptThenNative, [1], events, 0);
    Unfold(ScriptThenNative, [1], events, 1);
    Unfold(ScriptThenNative, [1], events, 2);
    Unfold(ScriptThenNative, [1], events, 3);
  }

  /** And that does happen: the client leaves while `nc` is silent, and its bytes are replayed to a
      second channel that nobody reads or closes. */
  lemma OrphanNativeHappens(hello: seq<byte>)
    requires 0 < |hello| <= 262144
    ensures var events := [ClientData(hello), ExecOpened, SocketClosed, ScriptOver(false), NativeOpened];
            var s := After(ScriptThenNative, [1], events, 5);
            && ValidRun(ScriptThenNative, [1], events, 5)
            && s.socket.closeEmitted && s.native.phase.NativeOpen? && !s.native.destroyed
            && s.relay.target.Some? && s.relay.target.value.written == hello
  {
    var events := [ClientData(hello), ExecOpened, SocketClosed, ScriptOver(false), NativeOpened];
    OrphanRun(hello);
    Unfold(ScriptThenNative, [1], events, 4);
    ChannelGetsWholeStream(ScriptThenNative, [1], events, 5);
  }

  // ---- The callbacks of one connection, which update its closures' variables ----

  class ForwardedConnection {
    const route: Route
    const marker: seq<byte>
    const relay: R.Relay
    const stripper: S.StripUntilMarker
    var script: ScriptSide
    var native: NativeSide
    var socket: Socket
    ghost var switches: nat
    ghost var seen: Observed

    ghost predicate Valid()
      reads this, relay, relay.target, stripper
    {
      relay.Valid() && stripper.marker == marker
    }

    ghost function View(): Conn
      reads this, relay, relay.target, stripper
    {
      Conn(relay.View(), stripper.View(), script, native, socket, switches, seen)
    }

    constructor (route: Route, marker: seq<byte>)
      ensures Valid() && View() == FRESH
      ensures this.route == route && this.marker == marker
    {
      this.route, this.marker := route, marker;
      relay := new R.Relay();
      stripper := new S.StripUntilMarker(marker);
      script := ScriptSide(ExecOpening, false, 0, false, false, [], []);
      native := NativeSide(NotTried, false, false, false, []);
      socket := Socket(false, false, false, false);
      switches := 0;
      seen := Observed([], [], [], [], false, false);
    }

    method ClientData(chunk: seq<byte>)
      requires Valid() && !relay.ended
      modifies this, relay, relay.target
      ensures Valid() && View() == OnClientBytes(old(View()), chunk)
    {
      relay.OnData(chunk);
      seen := seen.(sent := seen.sent + chunk);
    }

    method ClientEnd()
      requires Valid()
      modifies this, relay, relay.target
      ensures Valid() && View() == RelayStep(old(View()), R.End)
    {
      relay.OnEnd();
    }

    method SocketClosed()
      requires Valid()
      modifies this
      ensures Valid() && View() == OnSocketClosed(old(View()))
    {
      socket := socket.(closeEmitted := true, destroyed := true);
      if script.phase.ExecOpen? {
        script := script.(destroyed := true);
      }
      if native.phase.NativeOpen? {
        native := native.(destroyed := true);
      } else if native.phase.NativeOpening? && !native.settled {
        native := native.(settled := true, timerArmed := false);
      }
    }

    method ForwardNative()
      requires Valid()
      modifies this
      ensures Valid() && View() == Switch(old(View()))
    {
      native := native.(phase := NativeOpening, timerArmed := true);
      switches := switches + 1;
      seen := seen.(closedAtSwitch := socket.closeEmitted);
    }

    method FinishScript(fatal: bool)
      requires Valid()
      modifies this, relay
      ensures Valid() && View() == Finish(old(View()), route, fatal)
    {
      if script.settled {
        return;
      }
      script := script.(settled := true);
      if script.delivered > 0 {
        socket := if fatal then socket.(destroyed := true) else socket.(ended := true);
        return;
      }
      script := script.(destroyed := true);
      var replayable := relay.IsReplayable();
      if route.ScriptThenNative? && replayable {
        relay.DetachTarget();
        script := script.(piped := false);
        ForwardNative();
      } else {
        socket := socket.(destroyed := true);
      }
    }

    method ExecFailed()
      requires Valid()
      modifies this
      ensures Valid() && View() == OnExecFail(old(View()), route)
    {
      script := script.(phase := ExecGone);
      if route.ScriptThenNative? {
        ForwardNative();
      } else {
        socket := socket.(destroyed := true);
      }
    }

    method ExecOpened()
      requires Valid()
      modifies this, relay
      ensures Valid() && View() == OnExecOpen(old(View()))
    {
      if socket.destroyed {
        script := script.(phase := ExecGone);
        return;
      }
      var channel := new R.Channel();
      relay.AttachTo(channel);
      script := script.(phase := ExecOpen, piped := true);
      seen := seen.(sentAtAttach := seen.sent);
    }

    method FilterPassed(bytes: seq<byte>, fills: bool)
      requires Valid()
      modifies this, relay
      ensures Valid() && View() == Deliver(old(View()), bytes, fills)
    {
      script := script.(delivered := script.delivered + |bytes|);
      if !socket.destroyed && !socket.ended && !relay.ended {
        script := script.(toClient := script.toClient + bytes);
        socket := socket.(full := fills);
      }
      relay.ConfirmRoute();
    }

    method SocketDrained(count: nat, fills: bool)
      requires Valid() && count <= |script.held|
      modifies this, relay
      ensures Valid() && View() == OnDrained(old(View()), count, fills)
    {
      var held := script.held;
      script := script.(held := held[count..]);
      FilterPassed(held[..count], fills);
    }

    method ScriptData(chunk: seq<byte>, fills: bool)
      requires Valid()
      modifies this, relay, stripper
      ensures Valid() && View() == OnScriptData(old(View()), route, marker, chunk, fills)
    {
      seen := seen.(scriptChunks := seen.scriptChunks + [chunk],
                    late := seen.late || script.settled || script.destroyed);
      if stripper.failed {
        return;
      }
      var pushed := stripper.Transform(chunk);
      assert View() == Filtered(old(View()), marker, chunk);
      if stripper.failed {
        FinishScript(false);
      } else if script.piped && |pushed| > 0 {
        assert pushed == stripper.out[|old(stripper.out)|..];
        if socket.full {
          script := script.(held := script.held + pushed);
        } else {
          FilterPassed(pushed, fills);
        }
      }
    }

    method NativeOpened()
      requires Valid()
      modifies this, relay
      ensures Valid() && View() == OnNativeOpen(old(View()))
    {
      native := native.(timerArmed := false);
      if native.settled {
        native := native.(phase := NativeDropped);
        return;
      }
      var channel := new R.Channel();
      relay.AttachTo(channel);
      native := native.(phase := NativeOpen, settled := true);
      seen := seen.(sentAtAttach := seen.sent);
    }

    method NativeNotOpened(phase: NativePhase)
      requires Valid()
      modifies this
      ensures Valid() && View() == GiveUpNative(old(View()), phase)
    {
      if !native.settled {
        socket := socket.(destroyed := true);
      }
      native := native.(phase := phase, settled := true, timerArmed := false);
    }

    method NativeData(chunk: seq<byte>)
      requires Valid()
      modifies this
      ensures Valid() && View() == OnNativeBytes(old(View()), chunk)
    {
      if !socket.destroyed && !socket.ended && !relay.ended {
        native := native.(toClient := native.toClient + chunk);
      }
      seen := seen.(nativeBytes := seen.nativeBytes + chunk);
    }

    method NativeStreamOver(failed: bool)
      requires Valid()
      modifies this
      ensures Valid() && View() == OnNativeOver(old(View()), failed)
    {
      native := native.(phase := NativeOver);
      socket := if failed then socket.(destroyed := true) else socket.(ended := true);
    }
  }
}
