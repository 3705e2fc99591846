/** When the SOCKS5 handshake refuses, how, and when it waits. */
module Socks5Laws {
  import opened Basics
  import opened Socks5

  // ---- What is refused, and with which reply ----

  lemma WrongVersionIsRefused(s: seq<byte>)
    requires s != [] && s[0] != 5
    ensures Decide(s) == (Failed([]), [])
  {
  }

  lemma GreetingThenRest(methods: seq<byte>, rest: seq<byte>)
    requires |methods| < 256
    ensures var s := EncodeGreeting(methods) + rest;
            ReadGreeting(s) == if 0 in methods then GreetingDone(2 + |methods|) else GreetingBad(NO_METHOD_REPLY)
    ensures (EncodeGreeting(methods) + rest)[2 + |methods|..] == rest
  {
    var s := EncodeGreeting(methods) + rest;
    assert s[0] == 5 && s[1] == |methods| && s[2..2 + |methods|] == methods;
  }

  /** Without the method `no authentication` (0) the reply is 5, 255. */
  lemma OtherMethodsAreRefused(methods: seq<byte>, rest: seq<byte>)
    requires |methods| < 256 && 0 !in methods
    ensures Decide(EncodeGreeting(methods) + rest) == (Failed([5, 255]), [5, 255])
  {
    GreetingThenRest(methods, rest);
  }

  /** Behind a good greeting, which is answered 5, 0: a request of another version is refused without a
      reply, a command other than CONNECT with code 7, and an address type other than 1, 3, 4 with 8. */
  lemma RequestsAreRefused(methods: seq<byte>, request: seq<byte>)
    requires |methods| < 256 && 0 in methods && request != []
    ensures var r := Decide(EncodeGreeting(methods) + request);
            && (request[0] != 5 ==> r == (Failed([]), [5, 0]))
            && (request[0] == 5 && |request| >= 4 && request[1] != 1 ==>
                  r == (Failed([5, 7, 0, 1, 0, 0, 0, 0, 0, 0]), [5, 0] + [5, 7, 0, 1, 0, 0, 0, 0, 0, 0]))
            && (request[0] == 5 && |request| >= 4 && request[1] == 1 && request[3] !in {1, 3, 4} ==>
                  r == (Failed([5, 8, 0, 1, 0, 0, 0, 0, 0, 0]), [5, 0] + [5, 8, 0, 1, 0, 0, 0, 0, 0, 0]))
  {
    GreetingThenRest(methods, request);
    assert [5, 0] + [] == [5, 0];
  }

  // ---- When it waits ----

  /** Some continuation connects. */
  ghost predicate MayConnect(s: seq<byte>) {
    exists more :: Decide(s + more).0.Connect?
  }

  ghost predicate RequestMayConnect(s: seq<byte>) {
    exists more :: ReadRequest(s + more).Connect?
  }

  function Zeros(n: nat): seq<byte> {
    seq(n, _ => 0)
  }

  /** A request that has begun rightly is completed: four bytes at least, then an address and a port. */
  lemma HeadIsCompleted(s: seq<byte>)
    requires |s| < 4 && (|s| > 0 ==> s[0] == 5) && (|s| > 1 ==> s[1] == 1)
    ensures RequestMayConnect(s)
  {
    var more := [5, 1, 0, 1][|s|..] + Zeros(6);
    var all := s + more;
    assert all[0] == 5 && all[1] == 1 && all[3] == 1 && |all| == 10;
    assert ReadRequest(all).Connect?;
  }

  lemma AddressIsCompleted(s: seq<byte>)
    requires |s| >= 4 && s[0] == 5 && s[1] == 1 && s[3] in {1, 3, 4}
    ensures RequestMayConnect(s)
  {
    var more := Zeros(300);
    var all := s + more;
    assert all[0] == 5 && all[1] == 1 && all[3] == s[3] && |all| >= 304;
    assert ReadRequest(all).Connect?;
  }

  lemma HopelessRequest(s: seq<byte>, more: seq<byte>)
    requires |s| > 0 && (s[0] != 5 || (|s| > 1 && s[1] != 1) || (|s| > 3 && s[3] !in {1, 3, 4}))
    ensures !ReadRequest(s + more).Connect?
  {
  }

  lemma RequestWaitsExactly(s: seq<byte>)
    ensures ReadRequest(s).NeedMore? || ReadRequest(s).Connect? <==>
            RequestMayConnect(s) || (2 <= |s| < 4 && s[0] == 5 && s[1] != 1)
  {
    if |s| < 4 && (|s| > 0 ==> s[0] == 5) && (|s| > 1 ==> s[1] == 1) {
      HeadIsCompleted(s);
    } else if |s| >= 4 && s[0] == 5 && s[1] == 1 && s[3] in {1, 3, 4} {
      AddressIsCompleted(s);
    } else {
      forall more
        ensures !ReadRequest(s + more).Connect?
      {
        HopelessRequest(s, more);
      }
    }
  }

  lemma GreetingPieces(s: seq<byte>) returns (methods: seq<byte>, rest: seq<byte>)
    requires |s| >= 2 && s[0] == 5 && |s| >= 2 + Length(s[1])
    ensures |methods| < 256 && s == EncodeGreeting(methods) + rest
    ensures rest == s[2 + Length(s[1])..] && methods == s[2..2 + Length(s[1])]
  {
    var n := 2 + Length(s[1]);
    methods, rest := s[2..n], s[n..];
    assert s[..n] == [5, s[1]] + methods;
    assert s == s[..n] + s[n..];
  }

  /** The methods still to come may hold 0. */
  lemma OfferIsCompleted(begun: seq<byte>) returns (methods: seq<byte>)
    requires |begun| >= 2 && begun[0] == 5 && |begun| < 2 + Length(begun[1])
    ensures |methods| < 256 && 0 in methods && begun <= EncodeGreeting(methods)
  {
    methods := begun[2..] + Zeros(2 + Length(begun[1]) - |begun|);
    assert methods[|methods| - 1] == 0;
    assert begun == [5, begun[1]] + begun[2..];
  }

  lemma RequestFollows(methods: seq<byte>, rest: seq<byte>)
    requires |methods| < 256 && 0 in methods
    ensures Decide(EncodeGreeting(methods) + rest).0 == ReadRequest(rest)
  {
    GreetingThenRest(methods, rest);
  }

  lemma CompleteRequest() returns (request: seq<byte>)
    ensures ReadRequest(request).Connect?
  {
    HeadIsCompleted([]);
    var r :| ReadRequest([] + r).Connect?;
    request := [] + r;
  }

  lemma BeginningMayConnect(s: seq<byte>, offer: seq<byte>, request: seq<byte>)
    requires s <= offer && Decide(offer + request).0.Connect?
    ensures MayConnect(s)
  {
    assert s + (offer[|s|..] + request) == offer + request;
  }

  lemma OfferMayConnect(s: seq<byte>, methods: seq<byte>)
    requires |methods| < 256 && 0 in methods && s <= EncodeGreeting(methods)
    ensures MayConnect(s)
  {
    var request := CompleteRequest();
    RequestFollows(methods, request);
    BeginningMayConnect(s, EncodeGreeting(methods), request);
  }

  lemma GreetingIsCompleted(s: seq<byte>)
    requires s == [] || ReadGreeting(s).GreetingIncomplete?
    ensures MayConnect(s)
  {
    var begun := if |s| < 2 then [5, 1] else s;
    var methods := OfferIsCompleted(begun);
    OfferMayConnect(s, methods);
  }

  lemma RequestDecides(methods: seq<byte>, rest: seq<byte>)
    requires |methods| < 256 && 0 in methods
    ensures var s := EncodeGreeting(methods) + rest;
            MayConnect(s) <==> RequestMayConnect(rest)
  {
    var s := EncodeGreeting(methods) + rest;
    forall more
      ensures Decide(s + more).0 == ReadRequest(rest + more)
    {
      RequestFollows(methods, rest + more);
      assert s + more == EncodeGreeting(methods) + (rest + more);
    }
  }

  /** A request whose second byte is no CONNECT, before its fourth byte has come. */
  ghost predicate CommandNotSeenYet(s: seq<byte>) {
    exists methods, rest :: |methods| < 256 && 0 in methods && s == EncodeGreeting(methods) + rest
                            && 2 <= |rest| < 4 && rest[0] == 5 && rest[1] != 1
  }

  lemma RefusedStaysRefused(s: seq<byte>)
    requires Decide(s).0.Failed?
    ensures !MayConnect(s)
  {
    forall more
      ensures !Decide(s + more).0.Connect?
    {
      DecisionIsMonotone(s, more);
    }
  }

  lemma GreetedWaitsExactly(methods: seq<byte>, rest: seq<byte>)
    requires |methods| < 256 && 0 in methods
    ensures var s := EncodeGreeting(methods) + rest;
            !Decide(s).0.Failed? <==> MayConnect(s) || (2 <= |rest| < 4 && rest[0] == 5 && rest[1] != 1)
  {
    GreetingThenRest(methods, rest);
    RequestDecides(methods, rest);
    RequestWaitsExactly(rest);
  }

  lemma NotSeenYet(s: seq<byte>, methods: seq<byte>, rest: seq<byte>)
    requires |methods| < 256 && 0 in methods && s == EncodeGreeting(methods) + rest
    ensures CommandNotSeenYet(s) <==> 2 <= |rest| < 4 && rest[0] == 5 && rest[1] != 1
  {
    forall m, r | |m| < 256 && s == EncodeGreeting(m) + r
      ensures r == rest
    {
      assert s[1] == |m| == |methods|;
      assert s[2 + |m|..] == r && s[2 + |m|..] == rest;
    }
  }

  lemma NoGreetingYet(s: seq<byte>)
    requires s != [] && ReadGreeting(s).GreetingBad?
    ensures !CommandNotSeenYet(s)
  {
    forall m, r | |m| < 256 && 0 in m
      ensures s != EncodeGreeting(m) + r
    {
      GreetingThenRest(m, r);
    }
  }

  /** The handshake goes on exactly as long as some continuation connects, but for a command that it looks at
      only with the fourth byte of the request. */
  lemma WaitsExactly(s: seq<byte>)
    ensures !Decide(s).0.Failed? <==> MayConnect(s) || CommandNotSeenYet(s)
  {
    if s == [] || ReadGreeting(s).GreetingIncomplete? {
      GreetingIsCompleted(s);
    } else if ReadGreeting(s).GreetingDone? {
      var methods, rest := GreetingPieces(s);
      GreetedWaitsExactly(methods, rest);
      NotSeenYet(s, methods, rest);
    } else {
      RefusedStaysRefused(s);
      NoGreetingYet(s);
    }
  }
}
