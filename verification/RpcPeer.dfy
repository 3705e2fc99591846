/** The two-way JSON-RPC peer. */
module RpcPeer {
  // The peer numbers requests, matches responses to them, times them out, and gives every waiting caller
  // an answer when the connection fails. The outside world is a sequence of events.

  import opened Basics
  import opened Jsonl

  datatype RpcId = NumId(n: int) | StrId(s: string)

  datatype Reason =
    | TimedOut(method_: string) | SendFailed(message: string) | PeerFailed(reason: string)
    | RemoteError(method_: string, error: Json)

  datatype Outcome = Resolved(value: Json) | Rejected(reason: Reason)

  /** What the peer does to the outside, in order. */
  datatype Effect =
    | SentRequest(id: RpcId, method_: string)
    | Settled(id: RpcId, outcome: Outcome)
    | Refused(method_: string, reason: string)
    | Asked(id: RpcId, method_: string)
    | Answered(id: RpcId)
    | Unanswerable(id: RpcId)
    | Notified(method_: string)
    | Warned

  datatype Waiting = Waiting(method_: string, timed: bool)

  datatype Peer = Peer(
    pending: map<RpcId, Waiting>, timers: set<RpcId>, nextId: nat, rest: string,
    failure: Option<string>, open: multiset<RpcId>, dropped: seq<string>, log: seq<Effect>)

  const FRESH_PEER := Peer(map[], {}, 1, "", None, multiset{}, [], [])

  function Log(p: Peer, e: Effect): Peer {
    p.(log := p.log + [e])
  }

  // ---- Requests ----

  /** Requests are refused once a failure with a non-empty reason is recorded. */
  predicate Refuses(p: Peer) {
    p.failure.Some? && p.failure.value != ""
  }

  function Forget(p: Peer, id: RpcId): Peer {
    p.(pending := p.pending - {id}, timers := p.timers - {id})
  }

  /** The next id is taken; its request waits, and its timer runs if it has a limit. */
  function Issue(p: Peer, method_: string, timed: bool): Peer {
    var id := NumId(p.nextId);
    p.(nextId := p.nextId + 1, pending := p.pending[id := Waiting(method_, timed)],
       timers := if timed then p.timers + {id} else p.timers)
  }

  function Request(p: Peer, method_: string, timed: bool, sendError: Option<string>): Peer {
    var id := NumId(p.nextId);
    if Refuses(p) then Log(p, Refused(method_, p.failure.value))
    else if sendError.None? then Log(Issue(p, method_, timed), SentRequest(id, method_))
    else Log(Forget(Issue(p, method_, timed), id), Settled(id, Rejected(SendFailed(sendError.value))))
  }

  /** A live timer fires: its callback forgets the request and rejects, without looking it up. */
  function TimeOut(p: Peer, id: RpcId, method_: string): Peer {
    Log(Forget(p, id), Settled(id, Rejected(TimedOut(method_))))
  }

  /** Rejects the waiting requests with ids below n, in the order they were issued. */
  function Rejections(pending: map<RpcId, Waiting>, n: nat, reason: string): seq<Effect> {
    if n <= 1 then []
    else Rejections(pending, n - 1, reason)
         + if NumId(n - 1) in pending then [Settled(NumId(n - 1), Rejected(PeerFailed(reason)))] else []
  }

  /** The waiting requests with ids below n. */
  function WaitingBelow(pending: map<RpcId, Waiting>, n: nat): set<RpcId> {
    if n <= 1 then {} else WaitingBelow(pending, n - 1) + if NumId(n - 1) in pending then {NumId(n - 1)} else {}
  }

  lemma {:induction false} WaitingBelowExactly(pending: map<RpcId, Waiting>, n: nat)
    ensures forall id :: id in WaitingBelow(pending, n) <==> id in pending && id.NumId? && 1 <= id.n < n
  {
    if n > 1 {
      WaitingBelowExactly(pending, n - 1);
    }
  }

  function Fail(p: Peer, reason: string): Peer {
    var kept := if Refuses(p) then p.failure.value else reason;
    p.(failure := Some(kept), pending := map[], timers := p.timers - p.pending.Keys,
       log := p.log + Rejections(p.pending, p.nextId, kept))
  }

  // ---- Incoming messages ----

  function IdOf(frame: Json): Option<RpcId> {
    if frame.JObj? && "id" in frame.fields then
      match frame.fields["id"]
      case JNum(n) => Some(NumId(n))
      case JStr(s) => Some(StrId(s))
      case _ => None
    else None
  }

  function MethodOf(frame: Json): Option<string> {
    if frame.JObj? && "method" in frame.fields && frame.fields["method"].JStr?
    then Some(frame.fields["method"].s) else None
  }

  predicate Truthy(v: Json) {
    match v
    case JNull => false
    case JBool(b) => b
    case JNum(n) => n != 0
    case JStr(s) => s != ""
    case _ => true
  }

  function Field(frame: Json, key: string): Json
    requires frame.JObj?
  {
    if key in frame.fields then frame.fields[key] else JNull
  }

  function Respond(p: Peer, id: RpcId, frame: Json): Peer
    requires frame.JObj?
  {
    if id !in p.pending then Log(p, Warned)
    else
      var error := Field(frame, "error");
      var outcome := if Truthy(error) then Rejected(RemoteError(p.pending[id].method_, error))
                     else Resolved(Field(frame, "result"));
      Log(Forget(p, id), Settled(id, outcome))
  }

  /** A request has an id and a method, a response an id only, a notification a method only. */
  function Dispatch(p: Peer, frame: Json): Peer {
    var id, method_ := IdOf(frame), MethodOf(frame);
    if id.Some? && method_.Some? then
      Log(p.(open := p.open + multiset{id.value}), Asked(id.value, method_.value))
    else if id.Some? then Respond(p, id.value, frame)
    else if method_.Some? then Log(p, Notified(method_.value))
    else Log(p, Warned)
  }

  function DispatchAll(p: Peer, frames: seq<Json>): Peer
    decreases |frames|
  {
    if frames == [] then p else DispatchAll(Dispatch(p, frames[0]), frames[1..])
  }

  function Feed(p: Peer, chunk: string, parse: Parser): Peer {
    var r := SplitSpec(p.rest, chunk, parse);
    DispatchAll(p.(rest := r.rest, dropped := p.dropped + r.dropped), r.frames)
  }

  /** The handler of a peer's request is done: its result is written, or, if the handler or that
      write throws, an error; only when the second write throws too does the peer get no answer. */
  function HandlerDone(p: Peer, id: RpcId, handlerFailed: bool, resultThrows: bool, errorThrows: bool): Peer {
    var closed := p.(open := p.open - multiset{id});
    if (handlerFailed || resultThrows) && errorThrows then Log(closed, Unanswerable(id))
    else Log(closed, Answered(id))
  }

  // ---- Runs ----

  datatype Event =
    | Requested(method_: string, timed: bool, sendError: Option<string>)
    | TimerFired(id: RpcId)
    | Received(chunk: string)
    | Failed(reason: string)
    | Handled(id: RpcId, handlerFailed: bool, resultThrows: bool, errorThrows: bool)

  predicate Enabled(p: Peer, e: Event) {
    (e.TimerFired? ==> e.id in p.timers) && (e.Handled? ==> e.id in p.open)
  }

  function Step(p: Peer, e: Event, parse: Parser): Peer {
    match e
    case Requested(method_, timed, sendError) => Request(p, method_, timed, sendError)
    case TimerFired(id) => TimeOut(p, id, if id in p.pending then p.pending[id].method_ else "")
    case Received(chunk) => Feed(p, chunk, parse)
    case Failed(reason) => Fail(p, reason)
    case Handled(id, a, b, c) => HandlerDone(p, id, a, b, c)
  }

  function After(events: seq<Event>, parse: Parser, n: nat): Peer
    requires n <= |events|
  {
    if n == 0 then FRESH_PEER else Step(After(events, parse, n - 1), events[n - 1], parse)
  }

  ghost predicate ValidRun(events: seq<Event>, parse: Parser, n: nat)
    requires n <= |events|
  {
    n == 0 || (ValidRun(events, parse, n - 1) && Enabled(After(events, parse, n - 1), events[n - 1]))
  }

  // ---- Settling ----

  /** The effects that are counted. */
  datatype Kind = Settlement | Sending | Question | Reply

  predicate IsOf(e: Effect, kind: Kind, id: RpcId) {
    match kind
    case Settlement => e.Settled? && e.id == id
    case Sending => e.SentRequest? && e.id == id
    case Question => e.Asked? && e.id == id
    case Reply => (e.Answered? || e.Unanswerable?) && e.id == id
  }

  /** How many effects of a kind the first n of a log are for an id. */
  function LoggedFirst(log: seq<Effect>, n: nat, kind: Kind, id: RpcId): nat
    requires n <= |log|
  {
    if n == 0 then 0
    else LoggedFirst(log, n - 1, kind, id) + if IsOf(log[n - 1], kind, id) then 1 else 0
  }

  function Logged(log: seq<Effect>, kind: Kind, id: RpcId): nat {
    LoggedFirst(log, |log|, kind, id)
  }

  lemma {:induction false} LoggedTogether(a: seq<Effect>, b: seq<Effect>, n: nat, kind: Kind, id: RpcId)
    requires n <= |a + b|
    ensures LoggedFirst(a + b, n, kind, id) ==
            if n <= |a| then LoggedFirst(a, n, kind, id)
            else Logged(a, kind, id) + LoggedFirst(b, n - |a|, kind, id)
  {
    if n > 0 {
      LoggedTogether(a, b, n - 1, kind, id);
    }
  }

  lemma LoggedConcat(a: seq<Effect>, b: seq<Effect>, kind: Kind, id: RpcId)
    ensures Logged(a + b, kind, id) == Logged(a, kind, id) + Logged(b, kind, id)
  {
    LoggedTogether(a, b, |a + b|, kind, id);
  }

  lemma LoggedSnoc(log: seq<Effect>, e: Effect, kind: Kind, id: RpcId)
    ensures Logged(log + [e], kind, id) == Logged(log, kind, id) + if IsOf(e, kind, id) then 1 else 0
  {
    LoggedConcat(log, [e], kind, id);
    assert LoggedFirst([e], 0, kind, id) == 0;
  }

  predicate Issued(p: Peer, id: RpcId) {
    id.NumId? && 1 <= id.n < p.nextId
  }

  /** One id: it has been issued and waits, was settled once, or was never issued; and it has a live
      timer exactly while it waits with a time limit. */
  ghost predicate IdFits(p: Peer, id: RpcId) {
    && Logged(p.log, Settlement, id) == (if Issued(p, id) && id !in p.pending then 1 else 0)
    && (id in p.pending ==> Issued(p, id))
    && (id in p.timers <==> id in p.pending && p.pending[id].timed)
    && p.nextId >= 1
  }

  ghost predicate Inv(p: Peer) {
    && (forall id :: IdFits(p, id))
    && (Refuses(p) ==> p.pending == map[])
  }

  lemma RequestKeepsId(p: Peer, method_: string, timed: bool, sendError: Option<string>, id: RpcId)
    requires IdFits(p, id) && IdFits(p, NumId(p.nextId))
    ensures IdFits(Request(p, method_, timed, sendError), id)
  {
    var issued := NumId(p.nextId);
    LoggedSnoc(p.log, Refused(method_, if p.failure.Some? then p.failure.value else ""), Settlement, id);
    LoggedSnoc(p.log, SentRequest(issued, method_), Settlement, id);
    if sendError.Some? {
      LoggedSnoc(p.log, Settled(issued, Rejected(SendFailed(sendError.value))), Settlement, id);
    }
  }

  /** Settling a waiting request counts it once and stops its timer. */
  lemma SettleKeepsId(p: Peer, settled: RpcId, outcome: Outcome, id: RpcId)
    requires IdFits(p, id) && IdFits(p, settled) && settled in p.pending
    ensures IdFits(Log(Forget(p, settled), Settled(settled, outcome)), id)
  {
    LoggedSnoc(p.log, Settled(settled, outcome), Settlement, id);
  }

  lemma LogKeepsId(p: Peer, e: Effect, id: RpcId)
    requires IdFits(p, id) && !e.Settled?
    ensures IdFits(Log(p, e), id)
  {
    LoggedSnoc(p.log, e, Settlement, id);
  }

  lemma {:induction false} RejectionsSettle(pending: map<RpcId, Waiting>, n: nat, reason: string, id: RpcId)
    ensures Logged(Rejections(pending, n, reason), Settlement, id) ==
            if id.NumId? && 1 <= id.n < n && id in pending then 1 else 0
  {
    if n > 1 {
      RejectionsSettle(pending, n - 1, reason, id);
      if NumId(n - 1) in pending {
        LoggedSnoc(Rejections(pending, n - 1, reason),
                        Settled(NumId(n - 1), Rejected(PeerFailed(reason))), Settlement, id);
      } else {
        assert Rejections(pending, n - 1, reason) + [] == Rejections(pending, n - 1, reason);
      }
    }
  }

  lemma FailKeepsId(p: Peer, reason: string, id: RpcId)
    requires IdFits(p, id)
    ensures IdFits(Fail(p, reason), id)
  {
    var kept := if Refuses(p) then p.failure.value else reason;
    RejectionsSettle(p.pending, p.nextId, kept, id);
    LoggedConcat(p.log, Rejections(p.pending, p.nextId, kept), Settlement, id);
  }

  lemma DispatchKeepsInv(p: Peer, frame: Json)
    requires Inv(p)
    ensures Inv(Dispatch(p, frame)) && Dispatch(p, frame).failure == p.failure
  {
    forall id
      ensures IdFits(Dispatch(p, frame), id)
    {
      assert IdFits(p, id);
      DispatchKeepsId(p, frame, id);
    }
  }

  lemma DispatchKeepsId(p: Peer, frame: Json, id: RpcId)
    requires IdFits(p, id) && (IdOf(frame).Some? ==> IdFits(p, IdOf(frame).value))
    ensures IdFits(Dispatch(p, frame), id)
  {
    var fid, method_ := IdOf(frame), MethodOf(frame);
    if fid.Some? && method_.Some? {
      LogKeepsId(p.(open := p.open + multiset{fid.value}), Asked(fid.value, method_.value), id);
    } else if fid.Some? && fid.value in p.pending {
      var error := Field(frame, "error");
      SettleKeepsId(p, fid.value,
        if Truthy(error) then Rejected(RemoteError(p.pending[fid.value].method_, error))
        else Resolved(Field(frame, "result")), id);
    } else if fid.None? && method_.Some? {
      LogKeepsId(p, Notified(method_.value), id);
    } else {
      LogKeepsId(p, Warned, id);
    }
  }

  lemma {:induction false} DispatchAllKeepsInv(p: Peer, frames: seq<Json>)
    requires Inv(p)
    ensures Inv(DispatchAll(p, frames)) && DispatchAll(p, frames).failure == p.failure
    decreases |frames|
  {
    if frames != [] {
      DispatchKeepsInv(p, frames[0]);
      DispatchAllKeepsInv(Dispatch(p, frames[0]), frames[1..]);
    }
  }

  lemma FeedKeepsInv(p: Peer, chunk: string, parse: Parser)
    requires Inv(p)
    ensures Inv(Feed(p, chunk, parse)) && Feed(p, chunk, parse).failure == p.failure
  {
    var r := SplitSpec(p.rest, chunk, parse);
    var q := p.(rest := r.rest, dropped := p.dropped + r.dropped);
    forall id
      ensures IdFits(q, id)
    {
      assert IdFits(p, id);
    }
    DispatchAllKeepsInv(q, r.frames);
  }

  lemma StepKeepsId(p: Peer, e: Event, parse: Parser, id: RpcId)
    requires Enabled(p, e) && Inv(p) && !e.Received?
    ensures IdFits(Step(p, e, parse), id)
  {
    assert IdFits(p, id);
    match e
    case Requested(method_, timed, sendError) =>
      assert IdFits(p, NumId(p.nextId));
      RequestKeepsId(p, method_, timed, sendError, id);
    case TimerFired(timer) =>
      assert IdFits(p, timer);
      SettleKeepsId(p, timer, Rejected(TimedOut(p.pending[timer].method_)), id);
    case Failed(reason) => FailKeepsId(p, reason, id);
    case Handled(asked, a, b, c) =>
      var closed := p.(open := p.open - multiset{asked});
      LogKeepsId(closed, Unanswerable(asked), id);
      LogKeepsId(closed, Answered(asked), id);
  }

  lemma StepKeepsInv(p: Peer, e: Event, parse: Parser)
    requires Enabled(p, e) && Inv(p)
    ensures Inv(Step(p, e, parse))
  {
    if e.Received? {
      FeedKeepsInv(p, e.chunk, parse);
    } else {
      forall id
        ensures IdFits(Step(p, e, parse), id)
      {
        StepKeepsId(p, e, parse, id);
      }
    }
  }

  lemma FreshFits()
    ensures Inv(FRESH_PEER)
  {
  }

  lemma {:induction false} RunKeepsInv(events: seq<Event>, parse: Parser, n: nat)
    requires n <= |events| && ValidRun(events, parse, n)
    ensures Inv(After(events, parse, n))
  {
    if n == 0 {
      FreshFits();
    } else {
      RunKeepsInv(events, parse, n - 1);
      StepKeepsInv(After(events, parse, n - 1), events[n - 1], parse);
    }
  }

  /** Settle once, over every run: an issued request is settled exactly once or is still waiting, and
      nothing else is ever settled; a timer is live exactly for a waiting request with a limit. */
  lemma SettleOnce(events: seq<Event>, parse: Parser, n: nat, id: RpcId)
    requires n <= |events| && ValidRun(events, parse, n)
    ensures var p := After(events, parse, n);
            && Logged(p.log, Settlement, id) <= 1
            && (id in p.pending <==> Issued(p, id) && Logged(p.log, Settlement, id) == 0)
            && (id in p.timers <==> id in p.pending && p.pending[id].timed)
  {
    RunKeepsInv(events, parse, n);
    assert IdFits(After(events, parse, n), id);
  }

  // ---- Failure ----

  /** The reason that is kept: the first one that is not empty. */
  function KeptReason(events: seq<Event>, n: nat): Option<string>
    requires n <= |events|
  {
    if n == 0 then None
    else
      var before := KeptReason(events, n - 1);
      if events[n - 1].Failed? && (before.None? || before.value == "") then Some(events[n - 1].reason)
      else before
  }

  lemma {:induction false} DispatchAllKeepsFailure(p: Peer, frames: seq<Json>)
    ensures DispatchAll(p, frames).failure == p.failure
    decreases |frames|
  {
    if frames != [] {
      DispatchAllKeepsFailure(Dispatch(p, frames[0]), frames[1..]);
    }
  }

  lemma StepKeepsFailure(p: Peer, e: Event, parse: Parser)
    ensures Step(p, e, parse).failure ==
            if e.Failed? && !Refuses(p) then Some(e.reason) else p.failure
  {
    if e.Received? {
      var r := SplitSpec(p.rest, e.chunk, parse);
      DispatchAllKeepsFailure(p.(rest := r.rest, dropped := p.dropped + r.dropped), r.frames);
    }
  }

  lemma {:induction false} FailureIsKeptReason(events: seq<Event>, parse: Parser, n: nat)
    requires n <= |events|
    ensures After(events, parse, n).failure == KeptReason(events, n)
  {
    if n > 0 {
      var before, e := After(events, parse, n - 1), events[n - 1];
      FailureIsKeptReason(events, parse, n - 1);
      StepKeepsFailure(before, e, parse);
      assert After(events, parse, n) == Step(before, e, parse);
      assert KeptReason(events, n) == if e.Failed? && !Refuses(before) then Some(e.reason) else before.failure;
    }
  }

  function KeptOr(events: seq<Event>, n: nat): string
    requires n <= |events|
  {
    if KeptReason(events, n).Some? then KeptReason(events, n).value else ""
  }

  /** After a failure with a reason nothing waits any more, no timer is live, and every request is
      refused with the first such reason; an empty reason settles the waiting requests all the same
      but refuses nothing. */
  lemma FailureLaw(events: seq<Event>, parse: Parser, n: nat, method_: string, timed: bool)
    requires n <= |events| && ValidRun(events, parse, n)
    ensures var p := After(events, parse, n);
            var refused := Request(p, method_, timed, None) == Log(p, Refused(method_, KeptOr(events, n)));
            && (KeptOr(events, n) != "" ==> refused && p.pending == map[] && p.timers == {})
            && (KeptOr(events, n) == "" ==> NumId(p.nextId) in Request(p, method_, timed, None).pending)
    ensures n > 0 && events[n - 1].Failed? ==> After(events, parse, n).pending == map[]
  {
    FailureIsKeptReason(events, parse, n);
    RunKeepsInv(events, parse, n);
    var p := After(events, parse, n);
    if Refuses(p) {
      forall id
        ensures id !in p.timers
      {
        assert IdFits(p, id);
      }
    }
  }

  // ---- Ids and questions, over every run ----

  /** An id is sent at most once, and only after it was issued. */
  ghost predicate SentFits(p: Peer, id: RpcId) {
    p.nextId >= 1 && Logged(p.log, Sending, id) <= if Issued(p, id) then 1 else 0
  }

  /** Every question is still open or was replied to. */
  ghost predicate QuestionsFit(p: Peer, id: RpcId) {
    Logged(p.log, Question, id) == p.open[id] + Logged(p.log, Reply, id)
  }

  ghost predicate LogFits(p: Peer, id: RpcId) {
    SentFits(p, id) && QuestionsFit(p, id)
  }

  lemma OneEffect(log: seq<Effect>, e: Effect, id: RpcId)
    ensures Logged(log + [e], Sending, id) == Logged(log, Sending, id) + if IsOf(e, Sending, id) then 1 else 0
    ensures Logged(log + [e], Question, id) == Logged(log, Question, id) + if IsOf(e, Question, id) then 1 else 0
    ensures Logged(log + [e], Reply, id) == Logged(log, Reply, id) + if IsOf(e, Reply, id) then 1 else 0
  {
    LoggedSnoc(log, e, Sending, id);
    LoggedSnoc(log, e, Question, id);
    LoggedSnoc(log, e, Reply, id);
  }

  lemma RequestKeepsLog(p: Peer, method_: string, timed: bool, sendError: Option<string>, id: RpcId)
    requires LogFits(p, id)
    ensures LogFits(Request(p, method_, timed, sendError), id)
  {
    var last := Request(p, method_, timed, sendError).log[|p.log|];
    assert Request(p, method_, timed, sendError).log == p.log + [last];
    OneEffect(p.log, last, id);
  }

  lemma {:induction false} RejectionsOnlySettle(pending: map<RpcId, Waiting>, n: nat, reason: string,
                                                kind: Kind, id: RpcId)
    requires kind != Settlement
    ensures Logged(Rejections(pending, n, reason), kind, id) == 0
  {
    if n > 1 {
      RejectionsOnlySettle(pending, n - 1, reason, kind, id);
      var before := Rejections(pending, n - 1, reason);
      LoggedSnoc(before, Settled(NumId(n - 1), Rejected(PeerFailed(reason))), kind, id);
      assert before + [] == before;
    }
  }

  lemma FailKeepsLog(p: Peer, reason: string, id: RpcId)
    requires LogFits(p, id)
    ensures LogFits(Fail(p, reason), id)
  {
    var kept := if Refuses(p) then p.failure.value else reason;
    forall kind: Kind | kind != Settlement
      ensures Logged(Fail(p, reason).log, kind, id) == Logged(p.log, kind, id)
    {
      RejectionsOnlySettle(p.pending, p.nextId, kept, kind, id);
      LoggedConcat(p.log, Rejections(p.pending, p.nextId, kept), kind, id);
    }
  }

  /** A frame leaves the numbering alone and has one effect, which is neither a request nor a reply. */
  lemma DispatchLogsOne(p: Peer, frame: Json) returns (e: Effect)
    ensures Dispatch(p, frame).log == p.log + [e] && Dispatch(p, frame).nextId == p.nextId
    ensures !e.SentRequest? && !e.Answered? && !e.Unanswerable?
    ensures Dispatch(p, frame).open == p.open + if e.Asked? then multiset{e.id} else multiset{}
  {
    e := Dispatch(p, frame).log[|p.log|];
  }

  lemma {:induction false} DispatchAllKeepsLog(p: Peer, frames: seq<Json>, id: RpcId)
    requires LogFits(p, id)
    ensures LogFits(DispatchAll(p, frames), id)
    decreases |frames|
  {
    if frames != [] {
      DispatchKeepsLog(p, frames[0], id);
      DispatchAllKeepsLog(Dispatch(p, frames[0]), frames[1..], id);
    }
  }

  lemma DispatchKeepsLog(p: Peer, frame: Json, id: RpcId)
    requires LogFits(p, id)
    ensures LogFits(Dispatch(p, frame), id)
  {
    var e := DispatchLogsOne(p, frame);
    OneEffect(p.log, e, id);
  }

  lemma StepKeepsLog(p: Peer, e: Event, parse: Parser, id: RpcId)
    requires Enabled(p, e) && LogFits(p, id)
    ensures LogFits(Step(p, e, parse), id)
  {
    match e
    case Received(chunk) =>
      var r := SplitSpec(p.rest, chunk, parse);
      DispatchAllKeepsLog(p.(rest := r.rest, dropped := p.dropped + r.dropped), r.frames, id);
    case Failed(reason) => FailKeepsLog(p, reason, id);
    case Requested(method_, timed, sendError) => RequestKeepsLog(p, method_, timed, sendError, id);
    case Handled(asked, a, b, c) =>
      OneEffect(p.log, if (a || b) && c then Unanswerable(asked) else Answered(asked), id);
    case TimerFired(timer) =>
      var method_ := if timer in p.pending then p.pending[timer].method_ else "";
      OneEffect(p.log, Settled(timer, Rejected(TimedOut(method_))), id);
  }

  lemma {:induction false} RunKeepsLog(events: seq<Event>, parse: Parser, n: nat, id: RpcId)
    requires n <= |events| && ValidRun(events, parse, n)
    ensures LogFits(After(events, parse, n), id)
  {
    if n > 0 {
      RunKeepsLog(events, parse, n - 1, id);
      StepKeepsLog(After(events, parse, n - 1), events[n - 1], parse, id);
    }
  }

  /** No id is ever sent twice, over every run. */
  lemma IdsAreNeverReused(events: seq<Event>, parse: Parser, n: nat, id: RpcId)
    requires n <= |events| && ValidRun(events, parse, n)
    ensures SentFits(After(events, parse, n), id)
  {
    RunKeepsLog(events, parse, n, id);
  }

  /** Every question from the other side is open, answered once, or lost to two throwing writes. */
  lemma EveryQuestionIsAnsweredOnce(events: seq<Event>, parse: Parser, n: nat, id: RpcId)
    requires n <= |events| && ValidRun(events, parse, n)
    ensures QuestionsFit(After(events, parse, n), id)
  {
    RunKeepsLog(events, parse, n, id);
  }

  // ---- Chunk boundaries ----

  lemma {:induction false} DispatchConcat(p: Peer, a: seq<Json>, b: seq<Json>)
    ensures DispatchAll(p, a + b) == DispatchAll(DispatchAll(p, a), b)
    decreases |a|
  {
    if a == [] {
      assert a + b == b;
    } else {
      assert (a + b)[1..] == a[1..] + b;
      DispatchConcat(Dispatch(p, a[0]), a[1..], b);
    }
  }

  /** Dispatching neither reads nor changes the framing state. */
  lemma {:induction false} DispatchIgnoresFraming(p: Peer, frames: seq<Json>, rest: string, dropped: seq<string>)
    ensures DispatchAll(p.(rest := rest, dropped := dropped), frames)
            == DispatchAll(p, frames).(rest := rest, dropped := dropped)
    decreases |frames|
  {
    if frames != [] {
      DispatchOneIgnoresFraming(p, frames[0], rest, dropped);
      DispatchIgnoresFraming(Dispatch(p, frames[0]), frames[1..], rest, dropped);
    }
  }

  lemma DispatchOneIgnoresFraming(p: Peer, frame: Json, rest: string, dropped: seq<string>)
    ensures Dispatch(p.(rest := rest, dropped := dropped), frame)
            == Dispatch(p, frame).(rest := rest, dropped := dropped)
  {
  }

  lemma {:induction false} DispatchKeepsFraming(p: Peer, frames: seq<Json>)
    ensures DispatchAll(p, frames).rest == p.rest && DispatchAll(p, frames).dropped == p.dropped
    decreases |frames|
  {
    if frames != [] {
      DispatchKeepsFraming(Dispatch(p, frames[0]), frames[1..]);
    }
  }

  lemma FeedShape(p: Peer, chunk: string, parse: Parser)
    ensures var r := SplitSpec(p.rest, chunk, parse);
            Feed(p, chunk, parse) ==
            DispatchAll(p, r.frames).(rest := r.rest, dropped := p.dropped + r.dropped)
  {
    var r := SplitSpec(p.rest, chunk, parse);
    DispatchIgnoresFraming(p, r.frames, r.rest, p.dropped + r.dropped);
  }

  lemma FramingGoesAlong(p: Peer, split: JsonlSplit, rest: string, dropped: seq<string>)
    ensures var mid := p.(rest := rest, dropped := dropped);
            DispatchAll(mid, split.frames).(rest := split.rest, dropped := dropped + split.dropped)
            == DispatchAll(p, split.frames).(rest := split.rest, dropped := dropped + split.dropped)
  {
    DispatchIgnoresFraming(p, split.frames, rest, dropped);
  }

  lemma FeedTwice(p: Peer, first: JsonlSplit, second: JsonlSplit)
    ensures var mid := DispatchAll(p, first.frames).(rest := first.rest,
                                                     dropped := p.dropped + first.dropped);
            DispatchAll(mid, second.frames).(rest := second.rest, dropped := mid.dropped + second.dropped)
            == DispatchAll(p, first.frames + second.frames).(
                 rest := second.rest, dropped := p.dropped + (first.dropped + second.dropped))
  {
    DispatchConcat(p, first.frames, second.frames);
    FramingGoesAlong(DispatchAll(p, first.frames), second, first.rest, p.dropped + first.dropped);
    assert p.dropped + (first.dropped + second.dropped) == p.dropped + first.dropped + second.dropped;
  }

  /** A peer fed one text in two chunks ends in the same state, with the same effects in the same
      order, as one fed the whole text at once. */
  lemma FeedingIsChunkInvariant(p: Peer, a: string, b: string, parse: Parser)
    ensures Feed(Feed(p, a, parse), b, parse) == Feed(p, a + b, parse)
  {
    var first := SplitSpec(p.rest, a, parse);
    var second := SplitSpec(first.rest, b, parse);
    TwoChunksAreOne(p.rest, a, b, parse);
    FeedShape(p, a, parse);
    FeedShape(p, a + b, parse);
    FeedTwice(p, first, second);
    FeedShape(DispatchAll(p, first.frames).(rest := first.rest, dropped := p.dropped + first.dropped),
              b, parse);
  }

  function FeedAll(p: Peer, chunks: seq<string>, parse: Parser, n: nat): Peer
    requires n <= |chunks|
  {
    if n == 0 then p else Feed(FeedAll(p, chunks, parse, n - 1), chunks[n - 1], parse)
  }

  lemma FeedNothing(p: Peer, parse: Parser)
    requires '\n' !in p.rest
    ensures Feed(p, [], parse) == p
  {
    assert p.rest + [] == p.rest;
    ScanUnbroken(p.rest, []);
    assert [] + p.rest == p.rest && p.dropped + [] == p.dropped;
  }

  /** And so for every chunking: state and effects depend on the text received alone. */
  lemma {:induction false} ChunkingIsInvisible(p: Peer, chunks: seq<string>, parse: Parser, n: nat)
    requires n <= |chunks| && '\n' !in p.rest
    ensures FeedAll(p, chunks, parse, n) == Feed(p, FirstChunks(chunks, n), parse)
  {
    if n == 0 {
      FeedNothing(p, parse);
    } else {
      ChunkingIsInvisible(p, chunks, parse, n - 1);
      FeedingIsChunkInvariant(p, FirstChunks(chunks, n - 1), chunks[n - 1], parse);
    }
  }

  // ---- The object ----

  class RpcPeer {
    const parse: Parser
    var pending: map<RpcId, Waiting>
    var timers: set<RpcId>
    var nextId: nat
    var rest: string
    var failure: Option<string>
    ghost var open: multiset<RpcId>
    var dropped: seq<string>
    var log: seq<Effect>

    ghost predicate Valid()
      reads this
    {
      && nextId >= 1
      && (forall id :: id in pending ==> id.NumId? && 1 <= id.n < nextId)
    }

    ghost function View(): Peer
      reads this
    {
      Peer(pending, timers, nextId, rest, failure, open, dropped, log)
    }

    constructor (parse: Parser)
      ensures Valid() && View() == FRESH_PEER && this.parse == parse
    {
      this.parse := parse;
      pending, timers, nextId, rest := map[], {}, 1, "";
      failure, open, dropped, log := None, multiset{}, [], [];
    }

    method SendRequest(method_: string, timed: bool, sendError: Option<string>)
      requires Valid()
      modifies this
      ensures Valid() && View() == Request(old(View()), method_, timed, sendError)
    {
      if failure.Some? && failure.value != "" {
        log := log + [Refused(method_, failure.value)];
        return;
      }
      var id := NumId(nextId);
      nextId := nextId + 1;
      if timed {
        timers := timers + {id};
      }
      pending := pending[id := Waiting(method_, timed)];
      assert View() == Issue(old(View()), method_, timed);
      if sendError.None? {
        log := log + [SentRequest(id, method_)];
      } else {
        pending := pending - {id};
        timers := timers - {id};
        log := log + [Settled(id, Rejected(SendFailed(sendError.value)))];
      }
    }

    method OnTimer(id: RpcId, method_: string)
      requires Valid()
      modifies this
      ensures Valid() && View() == TimeOut(old(View()), id, method_)
    {
      pending := pending - {id};
      timers := timers - {id};
      log := log + [Settled(id, Rejected(TimedOut(method_)))];
    }

    method FailAll(reason: string)
      requires Valid()
      modifies this
      ensures Valid() && View() == Fail(old(View()), reason)
    {
      if failure.None? || failure.value == "" {
        failure := Some(reason);
      }
      var waiting, kept := pending, failure.value;
      pending := map[];
      for k := 1 to nextId
        invariant Valid() && pending == map[] && failure == Some(kept)
        invariant nextId == old(nextId) && rest == old(rest)
        invariant open == old(open) && dropped == old(dropped)
        invariant log == old(log) + Rejections(waiting, k, kept)
        invariant timers == old(timers) - WaitingBelow(waiting, k)
      {
        var id := NumId(k);
        if id in waiting {
          timers := timers - {id};
          log := log + [Settled(id, Rejected(PeerFailed(kept)))];
        }
      }
      WaitingBelowExactly(waiting, nextId);
      assert WaitingBelow(waiting, nextId) == waiting.Keys;
    }

    method HandleResponse(id: RpcId, frame: Json)
      requires Valid() && frame.JObj?
      modifies this
      ensures Valid() && View() == Respond(old(View()), id, frame)
    {
      if id !in pending {
        log := log + [Warned];
        return;
      }
      var method_ := pending[id].method_;
      pending := pending - {id};
      timers := timers - {id};
      var error := Field(frame, "error");
      if Truthy(error) {
        log := log + [Settled(id, Rejected(RemoteError(method_, error)))];
      } else {
        log := log + [Settled(id, Resolved(Field(frame, "result")))];
      }
    }

    method DispatchFrame(frame: Json)
      requires Valid()
      modifies this
      ensures Valid() && View() == Dispatch(old(View()), frame)
    {
      var id, method_ := IdOf(frame), MethodOf(frame);
      if id.Some? && method_.Some? {
        open := open + multiset{id.value};
        log := log + [Asked(id.value, method_.value)];
      } else if id.Some? {
        HandleResponse(id.value, frame);
      } else if method_.Some? {
        log := log + [Notified(method_.value)];
      } else {
        log := log + [Warned];
      }
    }

    method FeedChunk(chunk: string)
      requires Valid()
      modifies this
      ensures Valid() && View() == Feed(old(View()), chunk, parse)
    {
      var r := SplitJsonl(rest, chunk, parse);
      rest := r.rest;
      dropped := dropped + r.dropped;
      for i := 0 to |r.frames|
        invariant Valid()
        invariant DispatchAll(View(), r.frames[i..]) == Feed(old(View()), chunk, parse)
      {
        assert r.frames[i..][1..] == r.frames[i + 1..];
        DispatchFrame(r.frames[i]);
      }
    }

    method OnHandlerDone(id: RpcId, handlerFailed: bool, resultThrows: bool, errorThrows: bool)
      requires Valid()
      modifies this
      ensures Valid()
      ensures View() == HandlerDone(old(View()), id, handlerFailed, resultThrows, errorThrows)
    {
      open := open - multiset{id};
      if (handlerFailed || resultThrows) && errorThrows {
        log := log + [Unanswerable(id)];
      } else {
        log := log + [Answered(id)];
      }
    }
  }
}
