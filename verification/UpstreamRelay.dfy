/** Client bytes on their way into a tunnel. */
module UpstreamRelay {
  // The relay forwards client bytes to the attached channel and keeps a bounded copy of them, so that a
  // second channel can be given the same stream.

  import opened Basics

  const REPLAY_CAP_BYTES := 256 * 1024

  /** What one channel has been given so far. */
  datatype Wire = Wire(written: seq<byte>, ended: bool)

  datatype RelayState = RelayState(
    target: Option<Wire>, replay: seq<seq<byte>>, buffered: nat, confirmed: bool, ended: bool)

  datatype RelayEvent = Data(chunk: seq<byte>) | End | Attach | Detach | Confirm

  const FRESH_RELAY := RelayState(None, [], 0, false, false)

  predicate Replayable(s: RelayState) {
    !s.confirmed && s.buffered <= REPLAY_CAP_BYTES
  }

  function Step(s: RelayState, e: RelayEvent): RelayState {
    match e
    case Data(chunk) =>
      var total := s.buffered + |chunk|;
      var kept := if s.confirmed then s
                  else s.(buffered := total,
                          replay := if total <= REPLAY_CAP_BYTES then s.replay + [chunk] else []);
      if s.target.None? then kept
      else kept.(target := Some(s.target.value.(written := s.target.value.written + chunk)))
    case End =>
      s.(ended := true,
         target := if s.target.None? then None else Some(s.target.value.(ended := true)))
    case Attach => s.(target := Some(Wire(Flatten(s.replay), s.ended)))
    case Detach => s.(target := None)
    case Confirm => if s.confirmed then s else s.(confirmed := true, replay := [])
  }

  /** The relay after the first n events of a history. */
  function After(events: seq<RelayEvent>, n: nat): RelayState
    requires n <= |events|
  {
    if n == 0 then FRESH_RELAY else Step(After(events, n - 1), events[n - 1])
  }

  function BytesOf(e: RelayEvent): seq<byte> {
    if e.Data? then e.chunk else []
  }

  /** Everything the client sent in the first n events, whatever the relay kept of it. */
  function Sent(events: seq<RelayEvent>, n: nat): seq<byte>
    requires n <= |events|
  {
    if n == 0 then [] else Sent(events, n - 1) + BytesOf(events[n - 1])
  }

  /** Whether e is one of the first n events. */
  predicate Occurs(e: RelayEvent, events: seq<RelayEvent>, n: nat)
    requires n <= |events|
  {
    n > 0 && (events[n - 1] == e || Occurs(e, events, n - 1))
  }

  /** What the relay's own fields say about the stream sent so far. */
  ghost predicate CopyMatches(s: RelayState, sent: seq<byte>) {
    && Flatten(s.replay) == (if Replayable(s) then sent else [])
    && (!s.confirmed ==> s.buffered == |sent|)
  }

  lemma StepKeepsCopy(s: RelayState, e: RelayEvent, sent: seq<byte>)
    requires CopyMatches(s, sent)
    ensures CopyMatches(Step(s, e), sent + BytesOf(e))
  {
    if e.Data? {
      FlattenSnoc(s.replay, e.chunk);
    } else {
      assert sent + [] == sent;
    }
  }

  lemma {:induction false} FlagsFollow(events: seq<RelayEvent>, n: nat)
    requires n <= |events|
    ensures After(events, n).confirmed <==> Occurs(Confirm, events, n)
    ensures After(events, n).ended <==> Occurs(End, events, n)
  {
    if n != 0 {
      FlagsFollow(events, n - 1);
    }
  }

  lemma {:induction false} CopyFollows(events: seq<RelayEvent>, n: nat)
    requires n <= |events|
    ensures CopyMatches(After(events, n), Sent(events, n))
  {
    if n != 0 {
      CopyFollows(events, n - 1);
      StepKeepsCopy(After(events, n - 1), events[n - 1], Sent(events, n - 1));
    }
  }

  /** The copy is complete exactly while nothing was confirmed and the client sent at most the
      cap; otherwise it is empty, never a part of the stream. */
  lemma CopyIsAllOrNothing(events: seq<RelayEvent>, n: nat)
    requires n <= |events|
    ensures var s := After(events, n);
            && CopyMatches(s, Sent(events, n))
            && (s.confirmed <==> Occurs(Confirm, events, n))
            && (s.ended <==> Occurs(End, events, n))
            && (Replayable(s) <==>
                !Occurs(Confirm, events, n) && |Sent(events, n)| <= 262144)
  {
    CopyFollows(events, n);
    FlagsFollow(events, n);
  }

  /** One event feeds the attached channel the bytes and the end that it carries. */
  lemma StepFeedsTarget(s: RelayState, e: RelayEvent, written: seq<byte>)
    requires s.target == Some(Wire(written, s.ended)) && !e.Attach? && !e.Detach?
    ensures Step(s, e).target == Some(Wire(written + BytesOf(e), Step(s, e).ended))
  {
    assert written + [] == written;
  }

  /** Some bytes, and behind them what the client sent from event a up to the first n events. */
  function Followed(before: seq<byte>, events: seq<RelayEvent>, a: nat, n: nat): seq<byte>
    requires n <= |events|
  {
    if n <= a then before else Followed(before, events, a, n - 1) + BytesOf(events[n - 1])
  }

  function SentSince(events: seq<RelayEvent>, a: nat, n: nat): seq<byte>
    requires n <= |events|
  {
    Followed([], events, a, n)
  }

  lemma {:induction false} FollowedAddsUp(before: seq<byte>, events: seq<RelayEvent>, a: nat, n: nat)
    requires n <= |events|
    ensures Followed(before, events, a, n) == before + SentSince(events, a, n)
  {
    if a < n {
      FollowedAddsUp(before, events, a, n - 1);
    } else {
      assert before + [] == before;
    }
  }

  lemma {:induction false} SentIsFollowed(events: seq<RelayEvent>, a: nat, n: nat)
    requires a <= n <= |events|
    ensures Followed(Sent(events, a), events, a, n) == Sent(events, n)
  {
    if a < n {
      SentIsFollowed(events, a, n - 1);
    }
  }

  /** While a channel stays attached it is given exactly what the client sends, end included. */
  lemma {:induction false} TargetFollowsClient(events: seq<RelayEvent>, a: nat, n: nat, before: seq<byte>)
    requires a <= n <= |events|
    requires After(events, a).target == Some(Wire(before, After(events, a).ended))
    requires forall i :: a <= i < n ==> !events[i].Attach? && !events[i].Detach?
    ensures After(events, n).target == Some(Wire(Followed(before, events, a, n), After(events, n).ended))
  {
    if a < n {
      TargetFollowsClient(events, a, n - 1, before);
      StepFeedsTarget(After(events, n - 1), events[n - 1], Followed(before, events, a, n - 1));
    }
  }

  /** The copy at the attach, and everything since. */
  lemma AttachedChannelGets(events: seq<RelayEvent>, a: nat, n: nat)
    requires a < n <= |events| && events[a] == Attach
    requires forall i :: a < i < n ==> !events[i].Attach? && !events[i].Detach?
    ensures After(events, n).target ==
            Some(Wire(Followed(Flatten(After(events, a).replay), events, a + 1, n), After(events, n).ended))
  {
    TargetFollowsClient(events, a + 1, n, Flatten(After(events, a).replay));
  }

  lemma EndIsWhole<T>(a: seq<T>, b: seq<T>)
    ensures b == a + b <==> a == []
  {
    if a != [] {
      assert |b| < |a + b|;
    } else {
      assert a + b == b;
    }
  }

  lemma SentAcrossAttach(events: seq<RelayEvent>, a: nat, n: nat)
    requires a < n <= |events| && events[a] == Attach
    ensures Followed(Sent(events, a), events, a + 1, n) == Sent(events, n)
    ensures Sent(events, n) == Sent(events, a) + SentSince(events, a + 1, n)
    ensures Sent(events, n) == SentSince(events, a + 1, n) <==> Sent(events, a) == []
  {
    assert Sent(events, a + 1) == Sent(events, a);
    SentIsFollowed(events, a + 1, n);
    FollowedAddsUp(Sent(events, a), events, a + 1, n);
    EndIsWhole(Sent(events, a), SentSince(events, a + 1, n));
  }

  /** Law of a replay. A channel attached by event a and still attached after n events has been
      given the client's whole stream if, at the attach, nothing was confirmed and at most the cap had
      been sent. Failing that it has been given exactly the bytes sent after the attach, which are the
      whole stream only if nothing had been sent before. The end is forwarded exactly when the client
      ended. */
  lemma ReplayLaw(events: seq<RelayEvent>, a: nat, n: nat)
    requires a < n <= |events| && events[a] == Attach
    requires forall i :: a < i < n ==> !events[i].Attach? && !events[i].Detach?
    ensures var whole := !Occurs(Confirm, events, a) && |Sent(events, a)| <= 262144;
            After(events, n).target ==
            Some(Wire(if whole then Sent(events, n) else SentSince(events, a + 1, n), Occurs(End, events, n)))
    ensures Sent(events, n) == Sent(events, a) + SentSince(events, a + 1, n)
    ensures Sent(events, n) == SentSince(events, a + 1, n) <==> Sent(events, a) == []
  {
    CopyIsAllOrNothing(events, a);
    FlagsFollow(events, n);
    AttachedChannelGets(events, a, n);
    SentAcrossAttach(events, a, n);
  }

  /** The cap is the only way to lose bytes, and it can be passed before any channel was ever
      attached: 256 KiB and one byte sent while the first channel is still opening. */
  lemma EarlyBytesLostBeyondCap()
    ensures var events := [Data(seq(262145, _ => 0)), Attach];
            After(events, 2).target == Some(Wire([], false)) && Sent(events, 2) != []
  {
    var events := [Data(seq(262145, _ => 0)), Attach];
    assert After(events, 1) == Step(FRESH_RELAY, events[0]);
    assert Sent(events, 1) == [] + events[0].chunk;
  }

  /** The writable side of a duplex stream; writing after the end is an error of the caller. */
  class Channel {
    var written: seq<byte>
    var ended: bool

    constructor ()
      ensures written == [] && !ended
    {
      written, ended := [], false;
    }

    method Write(chunk: seq<byte>)
      requires !ended
      modifies this
      ensures written == old(written) + chunk && !ended
    {
      written := written + chunk;
    }

    method End()
      modifies this
      ensures ended && written == old(written)
    {
      ended := true;
    }
  }

  class Relay {
    var target: Channel?
    var replay: seq<seq<byte>>
    var buffered: nat
    var confirmed: bool
    var ended: bool

    ghost predicate Valid()
      reads this, target
    {
      target != null ==> target.ended == ended
    }

    ghost function View(): RelayState
      reads this, target
    {
      RelayState(if target == null then None else Some(Wire(target.written, target.ended)),
                 replay, buffered, confirmed, ended)
    }

    constructor ()
      ensures Valid() && View() == FRESH_RELAY
    {
      target, replay, buffered, confirmed, ended := null, [], 0, false, false;
    }

    // A stream emits no data after its end.
    method OnData(chunk: seq<byte>)
      requires Valid() && !ended
      modifies this, target
      ensures Valid() && target == old(target)
      ensures View() == Step(old(View()), Data(chunk))
    {
      if !confirmed {
        buffered := buffered + |chunk|;
        if buffered <= REPLAY_CAP_BYTES {
          replay := replay + [chunk];
        } else {
          replay := [];
        }
      }
      if target != null {
        target.Write(chunk);
      }
    }

    method OnEnd()
      requires Valid()
      modifies this, target
      ensures Valid() && target == old(target)
      ensures View() == Step(old(View()), End)
    {
      ended := true;
      if target != null {
        target.End();
      }
    }

    method IsReplayable() returns (r: bool)
      ensures r == Replayable(View())
    {
      r := !confirmed && buffered <= REPLAY_CAP_BYTES;
    }

    method AttachTo(channel: Channel)
      requires Valid() && channel.written == [] && !channel.ended
      modifies this, channel
      ensures Valid() && target == channel
      ensures View() == Step(old(View()), Attach)
    {
      target := channel;
      for i := 0 to |replay|
        invariant target == channel && !channel.ended
        invariant replay == old(replay) && buffered == old(buffered)
        invariant confirmed == old(confirmed) && ended == old(ended)
        invariant channel.written == Flatten(replay[..i])
      {
        assert replay[..i + 1] == replay[..i] + [replay[i]];
        FlattenSnoc(replay[..i], replay[i]);
        channel.Write(replay[i]);
      }
      assert replay[..|replay|] == replay;
      if ended {
        channel.End();
      }
    }

    method DetachTarget()
      requires Valid()
      modifies this
      ensures Valid() && target == null
      ensures View() == Step(old(View()), Detach)
    {
      target := null;
    }

    method ConfirmRoute()
      requires Valid()
      modifies this
      ensures Valid() && target == old(target)
      ensures View() == Step(old(View()), Confirm)
    {
      if !confirmed {
        confirmed := true;
        replay := [];
      }
    }
  }
}
