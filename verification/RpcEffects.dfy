/** What the JSON-RPC peer says to both sides, read off the events alone. */
module RpcEffects {
  import opened Basics
  import opened Jsonl
  import opened RpcPeer
  import opened RpcFates

  // ---- One message ----

  predicate NoId(frame: Json) {
    frame.JObj? ==> "id" in frame.fields ==> !frame.fields["id"].JNum? && !frame.fields["id"].JStr?
  }

  lemma NoIdIsFound(frame: Json)
    ensures IdOf(frame).None? <==> NoId(frame)
  {
  }

  /** A message with id and method is a question, with a method alone a notice; with an id alone it is a
      response, which settles the request that waits for it; anything else only warns. */
  lemma EveryFrameIsDispatched(p: Peer, frame: Json, id: RpcId, method_: string)
    ensures Carries(frame, "id", AsJson(id)) && Carries(frame, "method", JStr(method_)) ==>
              Dispatch(p, frame) == p.(open := p.open + multiset{id}, log := p.log + [Asked(id, method_)])
    ensures NoId(frame) && Carries(frame, "method", JStr(method_)) ==>
              Dispatch(p, frame) == p.(log := p.log + [Notified(method_)])
    ensures Answers(frame, id) && id in p.pending ==>
              Dispatch(p, frame) == p.(pending := p.pending - {id}, timers := p.timers - {id},
                                       log := p.log + [Settled(id, OutcomeOf(frame, p.pending[id].method_))])
    ensures (Answers(frame, id) && id !in p.pending) || (NoId(frame) && NoMethod(frame)) ==>
              Dispatch(p, frame) == p.(log := p.log + [Warned])
  {
    TestsFind(frame, id, method_);
    NoIdIsFound(frame);
    if Answers(frame, id) && id in p.pending {
      ResponseSettles(p, frame, id);
    }
  }

  // ---- Whole runs ----

  /** The effects that do not depend on what waits. */
  function Spoken(log: seq<Effect>): seq<Effect> {
    if log == [] then []
    else
      var last := log[|log| - 1];
      Spoken(log[..|log| - 1]) + if last.Settled? || last.Warned? then [] else [last]
  }

  lemma SpokenSnoc(log: seq<Effect>, e: Effect)
    ensures Spoken(log + [e]) == Spoken(log) + if e.Settled? || e.Warned? then [] else [e]
  {
    assert (log + [e])[..|log|] == log;
  }

  function SpokenOfFrame(frame: Json): seq<Effect> {
    if NoMethod(frame) || !frame.JObj? then []
    else
      var method_ := frame.fields["method"].s;
      if NoId(frame) then [Notified(method_)]
      else if frame.fields["id"].JNum? then [Asked(NumId(frame.fields["id"].n), method_)]
      else [Asked(StrId(frame.fields["id"].s), method_)]
  }

  function SpokenOfFrames(frames: seq<Json>): seq<Effect> {
    if frames == [] then [] else SpokenOfFrame(frames[0]) + SpokenOfFrames(frames[1..])
  }

  /** A request is refused with the reason kept, sent under the next id, or its write throws; a question
      gets an answer unless its handler or the writing of its result throws and the error's writing too. */
  function SpokenOfEvent(c: Before, e: Event, parse: Parser): seq<Effect> {
    match e
    case Requested(method_, _, sendError) =>
      if c.kept != "" then [Refused(method_, c.kept)]
      else if sendError.None? then [SentRequest(NumId(c.nextId), method_)]
      else []
    case Received(chunk) => SpokenOfFrames(FramesOf(Lines(c.line + chunk).0, parse))
    case Handled(id, handlerFailed, resultThrows, errorThrows) =>
      [if errorThrows && (resultThrows || handlerFailed) then Unanswerable(id) else Answered(id)]
    case _ => []
  }

  function SpokenIn(events: seq<Event>, parse: Parser, n: nat): seq<Effect>
    requires n <= |events|
  {
    if n == 0 then []
    else SpokenIn(events, parse, n - 1) + SpokenOfEvent(BeforeEvent(events, n - 1), events[n - 1], parse)
  }

  lemma FrameSpeaks(p: Peer, frame: Json)
    ensures Spoken(Dispatch(p, frame).log) == Spoken(p.log) + SpokenOfFrame(frame)
  {
    var e := DispatchLogsOne(p, frame);
    SpokenSnoc(p.log, e);
    assert Spoken(p.log) + [] == Spoken(p.log);
    NoIdIsFound(frame);
    TestsFind(frame, if IdOf(frame).Some? then IdOf(frame).value else NumId(0),
              if MethodOf(frame).Some? then MethodOf(frame).value else "");
  }

  lemma Joined(a: seq<Effect>, b: seq<Effect>, c: seq<Effect>)
    ensures a + (b + c) == a + b + c
  {
  }

  lemma {:induction false} FramesSpeak(p: Peer, frames: seq<Json>)
    ensures Spoken(DispatchAll(p, frames).log) == Spoken(p.log) + SpokenOfFrames(frames)
    decreases |frames|
  {
    if frames == [] {
      assert Spoken(p.log) + [] == Spoken(p.log);
    } else {
      FrameSpeaks(p, frames[0]);
      FramesSpeak(Dispatch(p, frames[0]), frames[1..]);
      Joined(Spoken(p.log), SpokenOfFrame(frames[0]), SpokenOfFrames(frames[1..]));
    }
  }

  lemma SettlingIsSilent(log: seq<Effect>, silent: seq<Effect>, id: RpcId, outcome: Outcome)
    requires Spoken(log + silent) == Spoken(log)
    ensures Spoken(log + (silent + [Settled(id, outcome)])) == Spoken(log)
  {
    SpokenSnoc(log + silent, Settled(id, outcome));
    Joined(log, silent, [Settled(id, outcome)]);
    assert Spoken(log) + [] == Spoken(log);
  }

  lemma {:induction false} RejectionsAreSilent(log: seq<Effect>, pending: map<RpcId, Waiting>, n: nat, reason: string)
    ensures Spoken(log + Rejections(pending, n, reason)) == Spoken(log)
  {
    if n <= 1 {
      assert log + [] == log;
    } else {
      RejectionsAreSilent(log, pending, n - 1, reason);
      var before := Rejections(pending, n - 1, reason);
      if NumId(n - 1) in pending {
        SettlingIsSilent(log, before, NumId(n - 1), Rejected(PeerFailed(reason)));
      } else {
        assert before + [] == before;
      }
    }
  }

  lemma StepSpeaks(p: Peer, e: Event, parse: Parser)
    requires Enabled(p, e)
    ensures Spoken(Step(p, e, parse).log) == Spoken(p.log) + SpokenOfEvent(KeptBy(p), e, parse)
  {
    assert Spoken(p.log) + [] == Spoken(p.log);
    match e
    case Received(chunk) =>
      var r := SplitSpec(p.rest, chunk, parse);
      FramesSpeak(p.(rest := r.rest, dropped := p.dropped + r.dropped), r.frames);
    case Failed(reason) =>
      RejectionsAreSilent(p.log, p.pending, p.nextId, if Refuses(p) then p.failure.value else reason);
    case Requested(method_, timed, sendError) =>
      SpokenSnoc(p.log, Step(p, e, parse).log[|p.log|]);
    case TimerFired(_) =>
      SpokenSnoc(p.log, Step(p, e, parse).log[|p.log|]);
    case Handled(id, a, b, c) =>
      SpokenSnoc(p.log, if (a || b) && c then Unanswerable(id) else Answered(id));
  }

  lemma OneEventSpeaks(events: seq<Event>, parse: Parser, n: nat, p: Peer, next: Peer)
    requires 0 < n <= |events| && Enabled(p, events[n - 1]) && next == Step(p, events[n - 1], parse)
    requires KeptBy(p) == BeforeEvent(events, n - 1) && Spoken(p.log) == SpokenIn(events, parse, n - 1)
    ensures Spoken(next.log) == SpokenIn(events, parse, n)
  {
    StepSpeaks(p, events[n - 1], parse);
  }

  /** Over every run what the peer has sent, refused, asked, notified and answered is, in order, what the
      events say. */
  lemma {:induction false} SpeaksAsTheEventsSay(events: seq<Event>, parse: Parser, n: nat)
    requires n <= |events| && ValidRun(events, parse, n)
    ensures Spoken(After(events, parse, n).log) == SpokenIn(events, parse, n)
  {
    if n > 0 {
      SpeaksAsTheEventsSay(events, parse, n - 1);
      PeerKeepsTheEvents(events, parse, n - 1);
      OneEventSpeaks(events, parse, n, After(events, parse, n - 1), After(events, parse, n));
    }
  }
}
