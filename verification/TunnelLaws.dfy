/** How one forwarded connection ends, and who is told. */
module TunnelLaws {
  // Every law is about the events and the fields of a connection; none names the function that a
  // callback is proved against.

  import opened Basics
  import opened TunnelConnection
  import R = UpstreamRelay

  /** This event settles the script route: its channel is over, or its filter gives up. */
  ghost predicate ScriptIsOver(s: Conn, t: Conn, e: Event) {
    !s.script.settled && (e.ScriptOver? || (e.ScriptData? && !s.strip.failed && t.strip.failed))
  }

  /** The other route is allowed, and can still be given everything the client sent. */
  predicate CanStartOver(s: Conn, route: Route) {
    route.ScriptThenNative? && |s.seen.sent| <= 262144
  }

  /** The script route is over before it gave the client anything, and there is no other. */
  ghost predicate GivesUp(s: Conn, t: Conn, route: Route, e: Event) {
    || (e.ExecFailed? && route.Script?)
    || (ScriptIsOver(s, t, e) && s.script.delivered == 0 && !CanStartOver(s, route))
  }

  /** The client is ended exactly when the native channel ends, or the script route does, normally and
      after it gave the client something. */
  ghost predicate EndsExactly(s: Conn, t: Conn, e: Event) {
    t.socket.ended <==>
    s.socket.ended || e.NativeEnded?
    || (ScriptIsOver(s, t, e) && e != ScriptOver(true) && s.script.delivered > 0)
  }

  /** The client is destroyed exactly when it closed, a route broke after it gave something, the native
      channel failed to open or did not in time, or no route is left. */
  ghost predicate DestroysExactly(s: Conn, t: Conn, route: Route, e: Event) {
    t.socket.destroyed <==>
    s.socket.destroyed || e.SocketClosed? || e.NativeErrored? || GivesUp(s, t, route, e)
    || ((e.NativeFailed? || e.NativeTimedOut?) && !s.native.settled)
    || (e == ScriptOver(true) && !s.script.settled && s.script.delivered > 0)
  }

  /** The second route is tried exactly when exec failed, or the script route is over before it gave the
      client anything; then only if everything can be replayed. */
  ghost predicate SwitchesExactly(s: Conn, t: Conn, route: Route, e: Event) {
    && (t.switches != s.switches <==>
          (e.ExecFailed? && route.ScriptThenNative?)
          || (ScriptIsOver(s, t, e) && s.script.delivered == 0 && CanStartOver(s, route)))
    && (t.switches != s.switches ==>
          t.native.phase.NativeOpening? && t.native.timerArmed && !t.native.settled)
  }

  /** The exec channel is freed exactly when the client closed or the route is over before it gave
      anything; the native channel exactly when the client closed. */
  ghost predicate FreesExactly(s: Conn, t: Conn, e: Event) {
    && (t.script.destroyed <==>
          s.script.destroyed || (e.SocketClosed? && s.script.phase.ExecOpen?)
          || (ScriptIsOver(s, t, e) && s.script.delivered == 0))
    && (t.native.destroyed <==> s.native.destroyed || (e.SocketClosed? && s.native.phase.NativeOpen?))
  }

  /** Each route is settled exactly by the first event that decides it. */
  ghost predicate SettlesExactly(s: Conn, t: Conn, e: Event) {
    && (t.script.settled <==> s.script.settled || ScriptIsOver(s, t, e))
    && (t.native.settled <==>
          s.native.settled || e.NativeOpened? || e.NativeFailed? || e.NativeTimedOut?
          || (e.SocketClosed? && s.native.phase.NativeOpening?))
  }

  /** A channel that opens for a client that has gone, or after it was given up, is dropped. */
  ghost predicate OpensExactly(s: Conn, t: Conn, e: Event) {
    && t.script.phase == (if e.ExecFailed? || (e.ExecOpened? && s.socket.destroyed) then ExecGone
                          else if e.ExecOpened? then ExecOpen else s.script.phase)
    && (e.NativeOpened? ==> t.native.phase == if s.native.settled then NativeDropped else NativeOpen)
    && (e.NativeFailed? ==> t.native.phase.NativeDropped?)
    && (e.NativeEnded? || e.NativeErrored? ==> t.native.phase.NativeOver?)
    && (t.native.phase != s.native.phase ==>
          t.switches != s.switches || e.NativeOpened? || e.NativeFailed? || e.NativeEnded? || e.NativeErrored?)
  }

  ghost predicate Outcome(s: Conn, t: Conn, route: Route, e: Event) {
    && EndsExactly(s, t, e) && DestroysExactly(s, t, route, e) && SwitchesExactly(s, t, route, e)
    && FreesExactly(s, t, e) && SettlesExactly(s, t, e) && OpensExactly(s, t, e)
  }

  /** The filter has taken a chunk and gives up. */
  lemma FilterGivesUp(s: Conn, t: Conn, route: Route, marker: seq<byte>, e: Event)
    requires e.ScriptData? && s.script.phase.ExecOpen? && PhasesFit(s, route) && ScriptFits(s, marker)
    requires R.CopyMatches(s.relay, s.seen.sent)
    requires t == s.(strip := t.strip, seen := t.seen) && !s.strip.failed && t.strip.failed
    ensures Outcome(s, Finish(t, route, false), route, e)
  {
  }

  /** The filter has taken a chunk and may have sent bytes onward. */
  lemma FilterGoesOn(s: Conn, t: Conn, u: Conn, route: Route, e: Event)
    requires e.ScriptData? && t == s.(strip := t.strip, seen := t.seen) && (s.strip.failed || !t.strip.failed)
    requires Onward(t, u)
    ensures Outcome(s, u, route, e)
  {
  }

  lemma ScriptDataOutcome(s: Conn, route: Route, marker: seq<byte>, chunk: seq<byte>, fills: bool)
    requires Enabled(s, ScriptData(chunk, fills)) && PhasesFit(s, route) && ScriptFits(s, marker)
    requires R.CopyMatches(s.relay, s.seen.sent)
    ensures Outcome(s, OnScriptData(s, route, marker, chunk, fills), route, ScriptData(chunk, fills))
  {
    var t, u := Filtered(s, marker, chunk), OnScriptData(s, route, marker, chunk, fills);
    if !s.strip.failed && t.strip.failed {
      FilterGivesUp(s, t, route, marker, ScriptData(chunk, fills));
    } else {
      if |t.strip.out| > |s.strip.out| {
        DeliverIsOnward(t, t.strip.out[|s.strip.out|..], fills);
      }
      FilterGoesOn(s, t, u, route, ScriptData(chunk, fills));
    }
  }

  lemma ScriptOverOutcome(s: Conn, route: Route, marker: seq<byte>, fatal: bool)
    requires Enabled(s, ScriptOver(fatal)) && PhasesFit(s, route) && ScriptFits(s, marker)
    requires R.CopyMatches(s.relay, s.seen.sent)
    ensures Outcome(s, Finish(s, route, fatal), route, ScriptOver(fatal))
  {
  }

  lemma ScriptSideOutcome(s: Conn, route: Route, marker: seq<byte>, e: Event)
    requires FromScriptSide(e) && Enabled(s, e) && PhasesFit(s, route) && ScriptFits(s, marker)
    requires R.CopyMatches(s.relay, s.seen.sent)
    ensures Outcome(s, Step(s, route, marker, e), route, e)
  {
    match e
    case ScriptData(chunk, fills) => ScriptDataOutcome(s, route, marker, chunk, fills);
    case SocketDrained(count, fills) => DrainedIsOnward(s, count, fills);
    case ScriptOver(fatal) => ScriptOverOutcome(s, route, marker, fatal);
    case ExecOpened =>
    case ExecFailed =>
  }

  lemma OtherOutcome(s: Conn, route: Route, marker: seq<byte>, e: Event)
    requires !FromScriptSide(e) && Enabled(s, e) && PhasesFit(s, route)
    ensures Outcome(s, Step(s, route, marker, e), route, e)
  {
    match e
    case SocketClosed =>
    case NativeOpened =>
    case NativeFailed =>
    case NativeTimedOut =>
    case NativeEnded =>
    case NativeErrored =>
    case _ =>
  }

  lemma StepOutcome(s: Conn, route: Route, marker: seq<byte>, e: Event)
    requires Enabled(s, e) && Inv(s, route, marker)
    ensures Outcome(s, Step(s, route, marker, e), route, e)
  {
    if FromScriptSide(e) {
      ScriptSideOutcome(s, route, marker, e);
    } else {
      OtherOutcome(s, route, marker, e);
    }
  }

  /** What every event does to the client, to the two channels and to the choice of the route. */
  lemma EveryEventHasItsOutcome(route: Route, marker: seq<byte>, events: seq<Event>, n: nat)
    requires n < |events| && ValidRun(route, marker, events, n + 1)
    ensures Outcome(After(route, marker, events, n), After(route, marker, events, n + 1), route, events[n])
  {
    RunKeepsInv(route, marker, events, n);
    StepOutcome(After(route, marker, events, n), route, marker, events[n]);
  }

  /** Bytes can still come to the client, or a route that is being opened will answer. */
  predicate RouteLeft(s: Conn) {
    || s.script.phase.ExecOpening? || (s.script.phase.ExecOpen? && !s.script.settled)
    || (s.native.phase.NativeOpening? && !s.native.settled) || s.native.phase.NativeOpen?
  }

  ghost predicate NobodyHangs(s: Conn) {
    && (!RouteLeft(s) ==> s.socket.destroyed || s.socket.ended)
    && (s.native.settled && !s.native.phase.NativeOpen? && !s.native.phase.NativeOver? ==> s.socket.destroyed)
  }

  lemma OutcomeKeepsClients(s: Conn, t: Conn, route: Route, e: Event)
    requires Outcome(s, t, route, e) && Enabled(s, e) && PhasesFit(s, route) && PhasesFit(t, route)
    requires NobodyHangs(s)
    ensures NobodyHangs(t)
  {
  }

  lemma StepKeepsClients(s: Conn, t: Conn, route: Route, marker: seq<byte>, e: Event)
    requires Enabled(s, e) && Inv(s, route, marker) && NobodyHangs(s) && t == Step(s, route, marker, e)
    ensures NobodyHangs(t)
  {
    StepOutcome(s, route, marker, e);
    StepKeepsInv(s, route, marker, e);
    OutcomeKeepsClients(s, t, route, e);
  }

  lemma FreshHangsNobody()
    ensures NobodyHangs(FRESH)
  {
  }

  /** No client is left waiting: without a route it was destroyed or ended; a native channel that was
      refused, timed out or came too late destroyed it. */
  lemma {:induction false} NoClientHangs(route: Route, marker: seq<byte>, events: seq<Event>, n: nat)
    requires n <= |events| && ValidRun(route, marker, events, n)
    ensures NobodyHangs(After(route, marker, events, n))
  {
    if n == 0 {
      FreshHangsNobody();
    } else {
      NoClientHangs(route, marker, events, n - 1);
      var s := After(route, marker, events, n - 1);
      RunKeepsInv(route, marker, events, n - 1);
      assert Enabled(s, events[n - 1]);
      StepKeepsClients(s, After(route, marker, events, n), route, marker, events[n - 1]);
    }
  }

  /** `nc` is absent and the SSH host refuses direct-tcpip: the client is destroyed. */
  lemma BothRoutesRefused(marker: seq<byte>)
    requires marker != []
    ensures var events := [ExecOpened, ScriptOver(false), NativeFailed];
            var s := After(ScriptThenNative, marker, events, 3);
            && ValidRun(ScriptThenNative, marker, events, 3)
            && s.socket.destroyed && !s.socket.ended && s.native.phase.NativeDropped?
  {
    var events := [ExecOpened, ScriptOver(false), NativeFailed];
    assert ValidRun(ScriptThenNative, marker, events, 0);
    Unfold(ScriptThenNative, marker, events, 0);
    Unfold(ScriptThenNative, marker, events, 1);
    Unfold(ScriptThenNative, marker, events, 2);
  }

  function ClientBytes(e: Event): seq<byte> {
    if e.ClientData? then e.chunk else []
  }

  function NativeBytes(e: Event): seq<byte> {
    if e.NativeData? then e.chunk else []
  }

  function ScriptChunks(e: Event): seq<seq<byte>> {
    if e.ScriptData? then [e.chunk] else []
  }

  /** What went over the three wires in the first n events. */
  function OnTheWires(events: seq<Event>, n: nat): (seq<byte>, seq<byte>, seq<seq<byte>>)
    requires n <= |events|
  {
    if n == 0 then ([], [], [])
    else
      var (sent, native, chunks) := OnTheWires(events, n - 1);
      var e := events[n - 1];
      (sent + ClientBytes(e), native + NativeBytes(e), chunks + ScriptChunks(e))
  }

  function Wires(s: Conn): (seq<byte>, seq<byte>, seq<seq<byte>>) {
    (s.seen.sent, s.seen.nativeBytes, s.seen.scriptChunks)
  }

  /** What the client has got, over either route. */
  function Got(s: Conn): (seq<byte>, seq<byte>) {
    (s.script.toClient, s.native.toClient)
  }

  lemma FinishObserves(s: Conn, route: Route, fatal: bool)
    ensures Finish(s, route, fatal).seen == s.seen.(closedAtSwitch := Finish(s, route, fatal).seen.closedAtSwitch)
    ensures Finish(s, route, fatal).relay.ended == s.relay.ended
    ensures Got(Finish(s, route, fatal)) == Got(s)
  {
  }

  lemma ScriptDataObserves(s: Conn, route: Route, marker: seq<byte>, chunk: seq<byte>, fills: bool)
    ensures var t := OnScriptData(s, route, marker, chunk, fills);
            && Wires(t) == (s.seen.sent, s.seen.nativeBytes, s.seen.scriptChunks + [chunk])
            && t.relay.ended == s.relay.ended
  {
    var t, u := Filtered(s, marker, chunk), OnScriptData(s, route, marker, chunk, fills);
    ScriptDataIsOnward(s, route, marker, chunk, fills);
    if u == Finish(t, route, false) {
      FinishObserves(t, route, false);
    }
  }

  lemma StepObserves(s: Conn, route: Route, marker: seq<byte>, e: Event)
    requires Enabled(s, e)
    ensures Wires(Step(s, route, marker, e)) ==
            (s.seen.sent + ClientBytes(e), s.seen.nativeBytes + NativeBytes(e), s.seen.scriptChunks + ScriptChunks(e))
    ensures Step(s, route, marker, e).relay.ended <==> s.relay.ended || e.ClientEnd?
  {
    assert s.seen.sent + [] == s.seen.sent && s.seen.nativeBytes + [] == s.seen.nativeBytes;
    assert s.seen.scriptChunks + [] == s.seen.scriptChunks;
    match e
    case ScriptData(chunk, fills) => ScriptDataObserves(s, route, marker, chunk, fills);
    case SocketDrained(count, fills) => DrainedIsOnward(s, count, fills);
    case ScriptOver(fatal) => FinishObserves(s, route, fatal);
    case _ =>
  }

  /** What the laws of a run call sent, delivered by the native channel and produced by the exec channel
      is what the events say. */
  lemma {:induction false} ObserverSeesTheEvents(route: Route, marker: seq<byte>, events: seq<Event>, n: nat)
    requires n <= |events| && ValidRun(route, marker, events, n)
    ensures Wires(After(route, marker, events, n)) == OnTheWires(events, n)
    ensures After(route, marker, events, n).relay.ended <==> ClientEnd in events[..n]
  {
    if n > 0 {
      ObserverSeesTheEvents(route, marker, events, n - 1);
      assert Enabled(After(route, marker, events, n - 1), events[n - 1]);
      StepObserves(After(route, marker, events, n - 1), route, marker, events[n - 1]);
      assert events[..n] == events[..n - 1] + [events[n - 1]];
    }
  }

  lemma FilterFeedsReaders(s: Conn, route: Route, marker: seq<byte>, chunk: seq<byte>, fills: bool)
    requires !ClientReads(s)
    ensures Got(OnScriptData(s, route, marker, chunk, fills)) == Got(s)
  {
    var t, u := Filtered(s, marker, chunk), OnScriptData(s, route, marker, chunk, fills);
    if u == Finish(t, route, false) {
      FinishObserves(t, route, false);
    }
  }

  lemma StepFeedsReaders(s: Conn, route: Route, marker: seq<byte>, e: Event)
    requires Enabled(s, e) && !ClientReads(s)
    ensures Got(Step(s, route, marker, e)) == Got(s)
  {
    match e
    case ScriptData(chunk, fills) => FilterFeedsReaders(s, route, marker, chunk, fills);
    case ScriptOver(fatal) => FinishObserves(s, route, fatal);
    case _ =>
  }

  /** A client that was ended or destroyed, or has ended, gets nothing any more. */
  lemma NothingForAGoneClient(route: Route, marker: seq<byte>, events: seq<Event>, n: nat)
    requires n < |events| && ValidRun(route, marker, events, n + 1)
    requires var s := After(route, marker, events, n);
             s.socket.destroyed || s.socket.ended || ClientEnd in events[..n]
    ensures Got(After(route, marker, events, n + 1)) == Got(After(route, marker, events, n))
  {
    ObserverSeesTheEvents(route, marker, events, n);
    StepFeedsReaders(After(route, marker, events, n), route, marker, events[n]);
  }

  /** A drained socket takes the first bytes that are held; bytes out of the filter are written to a socket
      that is not full and held behind one that is; nothing else is written, held or let go. */
  ghost predicate PlacesExactly(s: Conn, t: Conn, e: Event) {
    match e
    case SocketDrained(count, fills) =>
      && count <= |s.script.held| && t.script.held == s.script.held[count..]
      && t.script.toClient == s.script.toClient + s.script.held[..count]
      && t.socket.full == fills && t.native.toClient == s.native.toClient
    case ScriptData(_, fills) =>
      && (s.socket.full ==> t.script.toClient == s.script.toClient && t.socket.full)
      && (!s.socket.full ==>
            t.script.held == s.script.held && t.socket.full == (t.script.toClient != s.script.toClient && fills))
      && t.native.toClient == s.native.toClient
    case NativeData(chunk) =>
      && t.native.toClient == (if ClientReads(s) then s.native.toClient + chunk else s.native.toClient)
      && t.script == s.script && t.socket == s.socket
    case _ =>
      Got(t) == Got(s) && t.script.held == s.script.held && t.socket.full == s.socket.full
  }

  lemma FinishPlaces(s: Conn, route: Route, fatal: bool)
    ensures Finish(s, route, fatal).script.held == s.script.held
    ensures Finish(s, route, fatal).socket.full == s.socket.full
  {
  }

  lemma ScriptDataPlaces(s: Conn, route: Route, marker: seq<byte>, chunk: seq<byte>, fills: bool)
    ensures PlacesExactly(s, OnScriptData(s, route, marker, chunk, fills), ScriptData(chunk, fills))
  {
    var t := Filtered(s, marker, chunk);
    FinishObserves(t, route, false);
    FinishPlaces(t, route, false);
  }

  lemma StepPlaces(s: Conn, route: Route, marker: seq<byte>, e: Event)
    requires Enabled(s, e)
    ensures PlacesExactly(s, Step(s, route, marker, e), e)
  {
    match e
    case ScriptData(chunk, fills) => ScriptDataPlaces(s, route, marker, chunk, fills);
    case ScriptOver(fatal) =>
      FinishObserves(s, route, fatal);
      FinishPlaces(s, route, fatal);
    case _ =>
  }

  /** Where every byte for the client goes, event by event. */
  lemma EveryByteHasItsPlace(route: Route, marker: seq<byte>, events: seq<Event>, n: nat)
    requires n < |events| && ValidRun(route, marker, events, n + 1)
    ensures PlacesExactly(After(route, marker, events, n), After(route, marker, events, n + 1), events[n])
  {
    StepPlaces(After(route, marker, events, n), route, marker, events[n]);
  }
}
