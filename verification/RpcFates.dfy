/** What becomes of one request of the JSON-RPC peer. */
module RpcFates {
  // A request is followed on its own, through the events that concern it and nothing else. The peer,
  // which serves all requests at once, settles it with exactly that outcome.

  import opened Basics
  import opened Jsonl
  import opened RpcPeer

  datatype Fate = Unissued | Open(waiting: Waiting) | Done(outcome: Outcome)

  /** A message carries an id that is a number or a text, and a method that is a text. */
  predicate Carries(frame: Json, key: string, v: Json) {
    frame.JObj? && key in frame.fields && frame.fields[key] == v
  }

  function AsJson(id: RpcId): Json {
    match id
    case NumId(n) => JNum(n)
    case StrId(s) => JStr(s)
  }

  predicate NoMethod(frame: Json) {
    frame.JObj? ==> "method" in frame.fields ==> !frame.fields["method"].JStr?
  }

  /** A response is a message with an id and no method. */
  predicate Answers(frame: Json, id: RpcId) {
    Carries(frame, "id", AsJson(id)) && NoMethod(frame)
  }

  /** Its `error` is there and is not what the host language takes for false. */
  predicate MeansError(frame: Json)
    requires frame.JObj?
  {
    "error" in frame.fields && frame.fields["error"] !in {JNull, JBool(false), JNum(0), JStr("")}
  }

  function OutcomeOf(frame: Json, method_: string): Outcome
    requires frame.JObj?
  {
    if MeansError(frame) then Rejected(RemoteError(method_, frame.fields["error"]))
    else if "result" in frame.fields then Resolved(frame.fields["result"])
    else Resolved(JNull)
  }

  /** Only the first response to this very id, while the request is open, has a say. */
  function AfterFrame(fate: Fate, frame: Json, id: RpcId): Fate {
    if fate.Open? && Answers(frame, id) then Done(OutcomeOf(frame, fate.waiting.method_)) else fate
  }

  function AfterFrames(fate: Fate, frames: seq<Json>, id: RpcId): Fate
    decreases |frames|
  {
    if frames == [] then fate else AfterFrames(AfterFrame(fate, frames[0], id), frames[1..], id)
  }

  /** What else an event's meaning depends on: the failure reason kept (empty for none), the next id to
      be issued, and the unfinished line of the text received. */
  datatype Before = Before(kept: string, nextId: nat, line: string)

  function AfterRequest(c: Before, fate: Fate, waiting: Waiting, sendError: Option<string>, id: RpcId): Fate {
    if !fate.Unissued? || c.kept != "" || id != NumId(c.nextId) then fate
    else if sendError.None? then Open(waiting)
    else Done(Rejected(SendFailed(sendError.value)))
  }

  /** The event that issues the request opens it, or ends it when the write throws; after that the
      first of its timer, a response to it and a failure of the peer ends it. */
  function AfterEvent(c: Before, fate: Fate, e: Event, parse: Parser, id: RpcId): Fate {
    match e
    case Requested(method_, timed, sendError) => AfterRequest(c, fate, Waiting(method_, timed), sendError, id)
    case TimerFired(timer) =>
      if fate.Open? && timer == id then Done(Rejected(TimedOut(fate.waiting.method_))) else fate
    case Received(chunk) => AfterFrames(fate, SplitSpec(c.line, chunk, parse).frames, id)
    case Failed(reason) =>
      if fate.Open? then Done(Rejected(PeerFailed(if c.kept != "" then c.kept else reason))) else fate
    case Handled(_, _, _, _) => fate
  }

  // ---- What the events alone say ----

  /** The first reason that is not empty is kept, and ends the issue of ids; the text is read by lines. */
  function NextBefore(c: Before, e: Event): Before {
    match e
    case Requested(_, _, _) => c.(nextId := c.nextId + if c.kept == "" then 1 else 0)
    case Failed(reason) => if c.kept == "" then c.(kept := reason) else c
    case Received(chunk) => c.(line := Lines(c.line + chunk).1)
    case _ => c
  }

  function BeforeEvent(events: seq<Event>, n: nat): Before
    requires n <= |events|
  {
    if n == 0 then Before("", 1, "") else NextBefore(BeforeEvent(events, n - 1), events[n - 1])
  }

  function FateAfter(events: seq<Event>, parse: Parser, n: nat, id: RpcId): Fate
    requires n <= |events|
  {
    if n == 0 then Unissued
    else AfterEvent(BeforeEvent(events, n - 1), FateAfter(events, parse, n - 1, id), events[n - 1], parse, id)
  }

  // ---- What the peer keeps of them ----

  function KeptBy(p: Peer): Before {
    Before(if p.failure.Some? then p.failure.value else "", p.nextId, p.rest)
  }

  lemma {:induction false} DispatchKeepsNumbering(p: Peer, frames: seq<Json>)
    ensures DispatchAll(p, frames).nextId == p.nextId
    decreases |frames|
  {
    if frames != [] {
      var e := DispatchLogsOne(p, frames[0]);
      DispatchKeepsNumbering(Dispatch(p, frames[0]), frames[1..]);
    }
  }

  lemma FeedKeeps(p: Peer, chunk: string, parse: Parser)
    ensures Feed(p, chunk, parse).nextId == p.nextId
    ensures Feed(p, chunk, parse).rest == Lines(p.rest + chunk).1
  {
    var r := SplitSpec(p.rest, chunk, parse);
    var q := p.(rest := r.rest, dropped := p.dropped + r.dropped);
    DispatchKeepsNumbering(q, r.frames);
    DispatchKeepsFraming(q, r.frames);
  }

  lemma StepKeeps(p: Peer, e: Event, parse: Parser)
    ensures KeptBy(Step(p, e, parse)) == NextBefore(KeptBy(p), e)
  {
    StepKeepsFailure(p, e, parse);
    if e.Received? {
      FeedKeeps(p, e.chunk, parse);
    }
  }

  lemma {:induction false} PeerKeepsTheEvents(events: seq<Event>, parse: Parser, n: nat)
    requires n <= |events|
    ensures KeptBy(After(events, parse, n)) == BeforeEvent(events, n)
  {
    if n > 0 {
      PeerKeepsTheEvents(events, parse, n - 1);
      StepKeeps(After(events, parse, n - 1), events[n - 1], parse);
    }
  }

  /** The outcomes that a log gives to an id, in order. */
  function Outcomes(log: seq<Effect>, id: RpcId): seq<Outcome> {
    if log == [] then []
    else
      var last := log[|log| - 1];
      Outcomes(log[..|log| - 1], id) + if last.Settled? && last.id == id then [last.outcome] else []
  }

  lemma OutcomesSnoc(log: seq<Effect>, e: Effect, id: RpcId)
    ensures Outcomes(log + [e], id) ==
            if e.Settled? && e.id == id then Outcomes(log, id) + [e.outcome] else Outcomes(log, id)
  {
    assert (log + [e])[..|log|] == log;
    assert Outcomes(log, id) + [] == Outcomes(log, id);
  }

  lemma {:induction false} OutcomesConcat(a: seq<Effect>, b: seq<Effect>, id: RpcId)
    ensures Outcomes(a + b, id) == Outcomes(a, id) + Outcomes(b, id)
  {
    if b == [] {
      assert a + b == a && Outcomes(a, id) + [] == Outcomes(a, id);
    } else {
      var n := |b| - 1;
      OutcomesConcat(a, b[..n], id);
      assert a + b == (a + b[..n]) + [b[n]] && b == b[..n] + [b[n]];
      OutcomesSnoc(a + b[..n], b[n], id);
      OutcomesSnoc(b[..n], b[n], id);
    }
  }

  /** What the peer knows of one request, and has done about it. */
  datatype Record = Record(issued: bool, waiting: Option<Waiting>, outcomes: seq<Outcome>)

  function RecordOf(p: Peer, id: RpcId): Record {
    Record(Issued(p, id), if id in p.pending then Some(p.pending[id]) else None, Outcomes(p.log, id))
  }

  function RecordFor(fate: Fate): Record {
    match fate
    case Unissued => Record(false, None, [])
    case Open(waiting) => Record(true, Some(waiting), [])
    case Done(outcome) => Record(true, None, [outcome])
  }

  ghost predicate FateFits(p: Peer, fate: Fate, id: RpcId) {
    p.nextId >= 1 && RecordOf(p, id) == RecordFor(fate)
  }

  lemma RecordAfterLog(p: Peer, e: Effect, id: RpcId)
    ensures RecordOf(Log(p, e), id) ==
            RecordOf(p, id).(outcomes := Outcomes(p.log, id)
                                         + if e.Settled? && e.id == id then [e.outcome] else [])
  {
    OutcomesSnoc(p.log, e, id);
  }

  lemma RecordAfterForget(p: Peer, gone: RpcId, id: RpcId)
    ensures RecordOf(Forget(p, gone), id) ==
            if gone == id then RecordOf(p, id).(waiting := None) else RecordOf(p, id)
  {
  }

  lemma RecordAfterIssue(p: Peer, method_: string, timed: bool, id: RpcId)
    requires p.nextId >= 1
    ensures RecordOf(Issue(p, method_, timed), id) ==
            if id == NumId(p.nextId) then RecordOf(p, id).(issued := true, waiting := Some(Waiting(method_, timed)))
            else RecordOf(p, id)
  {
  }

  lemma SentFits(p: Peer, fate: Fate, method_: string, timed: bool, id: RpcId)
    requires FateFits(p, fate, id) && !Refuses(p)
    ensures RecordOf(Request(p, method_, timed, None), id) ==
            RecordFor(AfterRequest(KeptBy(p), fate, Waiting(method_, timed), None, id))
  {
    var sent := Issue(p, method_, timed);
    RecordAfterIssue(p, method_, timed, id);
    RecordAfterLog(sent, SentRequest(NumId(p.nextId), method_), id);
    assert Request(p, method_, timed, None) == Log(sent, SentRequest(NumId(p.nextId), method_));
  }

  lemma UnsentFits(p: Peer, fate: Fate, method_: string, timed: bool, error: string, id: RpcId)
    requires FateFits(p, fate, id) && !Refuses(p)
    ensures RecordOf(Request(p, method_, timed, Some(error)), id) ==
            RecordFor(AfterRequest(KeptBy(p), fate, Waiting(method_, timed), Some(error), id))
  {
    var issued := NumId(p.nextId);
    var undone := Forget(Issue(p, method_, timed), issued);
    var settled := Settled(issued, Rejected(SendFailed(error)));
    RecordAfterIssue(p, method_, timed, id);
    RecordAfterForget(Issue(p, method_, timed), issued, id);
    RecordAfterLog(undone, settled, id);
    assert Request(p, method_, timed, Some(error)) == Log(undone, settled);
  }

  lemma RequestFits(p: Peer, fate: Fate, method_: string, timed: bool, sendError: Option<string>, id: RpcId)
    requires FateFits(p, fate, id)
    ensures RecordOf(Request(p, method_, timed, sendError), id) ==
            RecordFor(AfterRequest(KeptBy(p), fate, Waiting(method_, timed), sendError, id))
  {
    if Refuses(p) {
      RecordAfterLog(p, Refused(method_, p.failure.value), id);
    } else if sendError.None? {
      SentFits(p, fate, method_, timed, id);
    } else {
      UnsentFits(p, fate, method_, timed, sendError.value, id);
    }
  }

  lemma TimerFits(p: Peer, fate: Fate, e: Event, parse: Parser, id: RpcId)
    requires e.TimerFired? && FateFits(p, fate, id) && e.id in p.pending
    ensures RecordOf(Step(p, e, parse), id) == RecordFor(AfterEvent(KeptBy(p), fate, e, parse, id))
  {
    RecordAfterForget(p, e.id, id);
    RecordAfterLog(Forget(p, e.id), Settled(e.id, Rejected(TimedOut(p.pending[e.id].method_))), id);
  }

  lemma {:induction false} OutcomesOfRejections(pending: map<RpcId, Waiting>, n: nat, reason: string, id: RpcId)
    ensures Outcomes(Rejections(pending, n, reason), id) ==
            if id.NumId? && 1 <= id.n < n && id in pending then [Rejected(PeerFailed(reason))] else []
  {
    if n > 1 {
      OutcomesOfRejections(pending, n - 1, reason, id);
      var before := Rejections(pending, n - 1, reason);
      OutcomesSnoc(before, Settled(NumId(n - 1), Rejected(PeerFailed(reason))), id);
      assert before + [] == before;
    }
  }

  lemma RecordAfterFail(p: Peer, reason: string, id: RpcId)
    ensures var kept := if Refuses(p) then p.failure.value else reason;
            RecordOf(Fail(p, reason), id) ==
            Record(Issued(p, id), None, Outcomes(p.log, id)
                   + if id.NumId? && 1 <= id.n < p.nextId && id in p.pending then [Rejected(PeerFailed(kept))] else [])
  {
    var kept := if Refuses(p) then p.failure.value else reason;
    OutcomesOfRejections(p.pending, p.nextId, kept, id);
    OutcomesConcat(p.log, Rejections(p.pending, p.nextId, kept), id);
  }

  lemma FailureFits(p: Peer, fate: Fate, e: Event, parse: Parser, id: RpcId)
    requires e.Failed? && FateFits(p, fate, id)
    ensures RecordOf(Step(p, e, parse), id) == RecordFor(AfterEvent(KeptBy(p), fate, e, parse, id))
  {
    RecordAfterFail(p, e.reason, id);
  }

  /** What the tests of the peer find in a message is what it carries. */
  lemma TestsFind(frame: Json, id: RpcId, method_: string)
    ensures IdOf(frame) == Some(id) <==> Carries(frame, "id", AsJson(id))
    ensures MethodOf(frame) == Some(method_) <==> Carries(frame, "method", JStr(method_))
    ensures MethodOf(frame).None? <==> NoMethod(frame)
  {
  }

  /** A response that is waited for settles its request: rejected with its error if that is an object, an
      array, a text, a number other than 0 or true; else resolved with its result. */
  lemma ResponseSettles(p: Peer, frame: Json, id: RpcId)
    requires frame.JObj? && id in p.pending
    ensures Respond(p, id, frame) == Log(Forget(p, id), Settled(id, OutcomeOf(frame, p.pending[id].method_)))
  {
  }

  lemma ResponseFits(p: Peer, fate: Fate, frame: Json, answered: RpcId, id: RpcId)
    requires FateFits(p, fate, id) && frame.JObj?
    ensures FateFits(Respond(p, answered, frame),
                     if fate.Open? && answered == id then Done(OutcomeOf(frame, fate.waiting.method_)) else fate, id)
  {
    if answered in p.pending {
      ResponseSettles(p, frame, answered);
      RecordAfterForget(p, answered, id);
      RecordAfterLog(Forget(p, answered), Settled(answered, OutcomeOf(frame, p.pending[answered].method_)), id);
    } else {
      RecordAfterLog(p, Warned, id);
    }
  }

  lemma FrameFits(p: Peer, fate: Fate, frame: Json, id: RpcId)
    requires FateFits(p, fate, id)
    ensures FateFits(Dispatch(p, frame), AfterFrame(fate, frame, id), id)
  {
    var fid, method_ := IdOf(frame), MethodOf(frame);
    TestsFind(frame, id, "");
    if fid.Some? && method_.None? {
      ResponseFits(p, fate, frame, fid.value, id);
    } else if fid.Some? {
      RecordAfterLog(p.(open := p.open + multiset{fid.value}), Asked(fid.value, method_.value), id);
    } else {
      RecordAfterLog(p, if method_.None? then Warned else Notified(method_.value), id);
    }
  }

  lemma {:induction false} FramesFit(p: Peer, fate: Fate, frames: seq<Json>, id: RpcId)
    requires FateFits(p, fate, id)
    ensures FateFits(DispatchAll(p, frames), AfterFrames(fate, frames, id), id)
    decreases |frames|
  {
    if frames != [] {
      FrameFits(p, fate, frames[0], id);
      FramesFit(Dispatch(p, frames[0]), AfterFrame(fate, frames[0], id), frames[1..], id);
    }
  }

  lemma EventFits(p: Peer, fate: Fate, e: Event, parse: Parser, id: RpcId)
    requires FateFits(p, fate, id) && (e.TimerFired? ==> e.id in p.pending)
    ensures RecordOf(Step(p, e, parse), id) == RecordFor(AfterEvent(KeptBy(p), fate, e, parse, id))
  {
    match e
    case Requested(method_, timed, sendError) => RequestFits(p, fate, method_, timed, sendError, id);
    case TimerFired(_) => TimerFits(p, fate, e, parse, id);
    case Failed(_) => FailureFits(p, fate, e, parse, id);
    case Received(chunk) =>
      var r := SplitSpec(p.rest, chunk, parse);
      FramesFit(p.(rest := r.rest, dropped := p.dropped + r.dropped), fate, r.frames, id);
    case Handled(asked, a, b, c) =>
      RecordAfterLog(p.(open := p.open - multiset{asked}),
                     if (a || b) && c then Unanswerable(asked) else Answered(asked), id);
  }

  lemma NextFits(events: seq<Event>, parse: Parser, n: nat, id: RpcId)
    requires n < |events| && ValidRun(events, parse, n + 1)
    requires RecordOf(After(events, parse, n), id) == RecordFor(FateAfter(events, parse, n, id))
    ensures RecordOf(After(events, parse, n + 1), id) == RecordFor(FateAfter(events, parse, n + 1, id))
  {
    var p, e := After(events, parse, n), events[n];
    RunKeepsInv(events, parse, n);
    assert IdFits(p, if e.TimerFired? then e.id else id);
    PeerKeepsTheEvents(events, parse, n);
    EventFits(p, FateAfter(events, parse, n, id), e, parse, id);
  }

  /** Settled by its own first closing event, over every run: an id is unissued, waits, or has been
      settled once, with the outcome of the first event after its issue that closes it. A response to
      another id, a late one or a second one never supplies it. */
  lemma {:induction false} SettledByItsOwnCloser(events: seq<Event>, parse: Parser, n: nat, id: RpcId)
    requires n <= |events| && ValidRun(events, parse, n)
    ensures RecordOf(After(events, parse, n), id) == RecordFor(FateAfter(events, parse, n, id))
  {
    if n == 0 {
    } else {
      SettledByItsOwnCloser(events, parse, n - 1, id);
      NextFits(events, parse, n - 1, id);
    }
  }

  lemma {:induction false} DoneStays(fate: Fate, frames: seq<Json>, id: RpcId)
    requires fate.Done?
    ensures AfterFrames(fate, frames, id) == fate
    decreases |frames|
  {
    if frames != [] {
      DoneStays(fate, frames[1..], id);
    }
  }

  /** Once settled, an outcome is final: no event changes it. */
  lemma DoneIsFinal(c: Before, fate: Fate, e: Event, parse: Parser, id: RpcId)
    requires fate.Done?
    ensures AfterEvent(c, fate, e, parse, id) == fate
  {
    if e.Received? {
      DoneStays(fate, SplitSpec(c.line, e.chunk, parse).frames, id);
    }
  }

  /** Frames that do not answer an id leave its fate alone. */
  lemma {:induction false} OtherFramesHaveNoSay(fate: Fate, frames: seq<Json>, id: RpcId)
    requires forall f :: f in frames ==> !Answers(f, id)
    ensures AfterFrames(fate, frames, id) == fate
    decreases |frames|
  {
    if frames != [] {
      assert frames[0] in frames && forall f :: f in frames[1..] ==> f in frames;
      OtherFramesHaveNoSay(fate, frames[1..], id);
    }
  }
}
