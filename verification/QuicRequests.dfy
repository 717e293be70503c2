/** Requests and replies in whole runs: what is answered, how often, and to which call the answer is given. */
module QuicRequests {
  import opened Wrappers
  import opened ByteStrings
  import opened Application
  import opened Handshake
  import opened QuicEndpoints
  import opened QuicRun
  import opened QuicScript
  import opened QuicSafety

  // ---------------------------------------------------------------------------------------------
  // Every run
  // ---------------------------------------------------------------------------------------------

  /** The replies received are the application's answers to different handled requests. */
  predicate AreAnswers(handled: seq<Handled>, received: seq<Bytes>, answers: seq<nat>) {
    |answers| == |received| && Places(answers, |handled|) &&
    forall k | 0 <= k < |received| :: handled[answers[k]].Ran? && handled[answers[k]].outcome == Ok(received[k])
  }

  lemma AnswersArrive(handled: seq<Handled>, replies: seq<Numbered>, received: seq<Bytes>, answering: seq<nat>, arrival: seq<nat>)
    returns (answers: seq<nat>)
    requires Answered(handled, replies, answering) && Arrived(replies, received, arrival)
    ensures AreAnswers(handled, received, answers)
  {
    answers := seq(|arrival|, k requires 0 <= k < |arrival| => answering[arrival[k]]);
    forall i, j | 0 <= i < j < |answers| ensures answers[i] != answers[j] {
      assert arrival[i] != arrival[j];
    }
  }

  /**
    In every run each request is handled at most once, on exactly its own bytes and with the session
    of the handshake; and each reply received is the application's answer to a request of its own.
  */
  lemma RequestsServedOnce(env: Env, trace: seq<System>, events: seq<Event>, i: nat) returns (order: seq<nat>, answers: seq<nat>)
    requires Sound(env) && Usable(env) && IsRun(env, trace, events) && i < |trace|
    ensures trace[i].server.handled != [] ==>
              trace[i].server.session.Some? &&
              HandledOnce(env, trace[i].server.session.value, trace[i].client.requests, trace[i].server.handled, order)
    ensures AreAnswers(trace[i].server.handled, trace[i].client.received, answers)
  {
    hide Sound, Shared, Usable, IsRun, ScriptOf, FromClient, FromServer, NumbersAt, Ordered, ClientStateOk, HandledOnce, Answered, Arrived,
         AreAnswers;
    SoundIsShared(env);
    var log := RunIsSafe(env, trace, events, i);
    order := log.order;
    answers := AnswersArrive(trace[i].server.handled, trace[i].server.replies, trace[i].client.received, log.answering, log.arrival);
  }

  // ---------------------------------------------------------------------------------------------
  // Clients that wait
  // ---------------------------------------------------------------------------------------------

  /** The client sends a request only when it has had the replies to all requests before it. */
  ghost predicate Waits(trace: seq<System>, events: seq<Event>)
    requires |trace| == |events| + 1
  {
    forall k | 0 <= k < |events| && events[k].Requests? :: |trace[k].client.received| == |trace[k].client.requests|
  }

  predicate Straight(places: seq<nat>) {
    forall i | 0 <= i < |places| :: places[i] == i
  }

  lemma OwnPlace(places: seq<nat>, more: seq<nat>, k: nat)
    requires Straight(places) && places <= more && k < |places|
    ensures more[k] == k
  {
  }

  lemma NextPlace(places: seq<nat>, more: seq<nat>, n: nat, i: nat)
    requires Straight(places) && places <= more && Places(more, n) && n <= |places| + 1 && |places| <= i < |more|
    ensures more[i] == |places|
  {
    if more[i] < |places| {
      OwnPlace(places, more, more[i]);
      assert false;
    }
  }

  lemma StraightGrows(places: seq<nat>, more: seq<nat>, n: nat)
    requires Straight(places) && places <= more && Places(more, n) && n <= |places| + 1
    ensures Straight(more) && |more| <= n
  {
    if |places| < |more| {
      NextPlace(places, more, n, |places|);
      if |places| + 1 < |more| {
        NextPlace(places, more, n, |places| + 1);
        assert false;
      }
    } else if places != [] {
      assert more[|places| - 1] == |places| - 1;
    }
  }

  lemma RequestsGrow(env: Env, s: System, e: Event)
    requires Usable(env) && Enabled(s, e)
    ensures |Next(env, s, e).client.requests| <= |s.client.requests| + (if e.Requests? then 1 else 0)
  {
    hide Usable, Decoded, ServerHandle, AckOf, OpenApp, AppPacket, ReceiveServerHello, ReceiveServerFinished, SendClientFinished,
         SendClientHello, ClientDirection, ServerDirection, SetOf;
  }

  /** Everything is in order, and at most one reply is outstanding. */
  ghost predicate InStep(env: Env, s: System, log: Log)
    requires Shared(env)
  {
    Safe(env, ScriptOf(env), s, log) && Straight(log.order) && Straight(log.answering) && Straight(log.arrival) &&
    |s.client.received| <= |s.server.replies| <= |s.server.handled| <= |s.client.requests| <= |s.client.received| + 1
  }

  lemma StepKeepsInStep(env: Env, s: System, e: Event, log: Log) returns (log': Log)
    requires Sound(env) && Usable(env) && Shared(env) && InStep(env, s, log) && Enabled(s, e)
    requires e.Requests? ==> |s.client.received| == |s.client.requests|
    ensures InStep(env, Next(env, s, e), log')
  {
    hide Sound, Shared, Usable, Follows, Enabled, Next, ScriptOf, FromClient, FromServer, ClientOk, ServerOk, Linked, Ordered, NumbersAt,
         HandleRequest, Straight;
    SoundFollows(env);
    RequestsGrow(env, s, e);
    log' := StepKeepsSafe(env, ScriptOf(env), s, e, log);
    var s' := Next(env, s, e);
    StraightGrows(log.order, log'.order, |s'.client.requests|);
    StraightGrows(log.answering, log'.answering, |s'.server.handled|);
    StraightGrows(log.arrival, log'.arrival, |s'.server.replies|);
  }

  lemma {:induction false} RunInStep(env: Env, trace: seq<System>, events: seq<Event>, i: nat) returns (log: Log)
    requires Sound(env) && Usable(env) && Shared(env) && IsRun(env, trace, events) && Waits(trace, events) && i < |trace|
    ensures InStep(env, trace[i], log)
  {
    hide Sound, Shared, Usable, Safe, Enabled, Next, ScriptOf;
    if i == 0 {
      StartIsSafe(env, ScriptOf(env));
      log := NOTHING;
    } else {
      log := RunInStep(env, trace, events, i - 1);
      log := StepKeepsInStep(env, trace[i - 1], events[i - 1], log);
      assert trace[i - 1 + 1] == Next(env, trace[i - 1], events[i - 1]);
    }
  }

  /**
    In every run in which the client waits for each reply, the requests handled are a prefix of those
    sent, and the k-th reply the client receives is the application's answer to its k-th request.
  */
  lemma RequestsServedInOrder(env: Env, trace: seq<System>, events: seq<Event>, i: nat, k: nat)
    requires Sound(env) && Usable(env) && IsRun(env, trace, events) && Waits(trace, events) && i < |trace|
    ensures |trace[i].client.received| <= |trace[i].server.handled| <= |trace[i].client.requests|
    ensures k < |trace[i].server.handled| ==>
              trace[i].server.session.Some? &&
              trace[i].server.handled[k] == HandleRequest(env, trace[i].server.handled[..k], trace[i].server.session.value,
                                                          trace[i].client.requests[k].bytes)
    ensures k < |trace[i].client.received| ==>
              var request := trace[i].client.requests[k].bytes;
              env.parses(request) &&
              env.app(trace[i].server.handled[..k], trace[i].server.session.value, request) == Ok(trace[i].client.received[k])
  {
    hide Sound, Shared, Usable, IsRun, ScriptOf, FromClient, FromServer, NumbersAt, Ordered, ClientStateOk;
    SoundIsShared(env);
    var log := RunInStep(env, trace, events, i);
    if k < |trace[i].server.handled| {
      assert log.order[k] == k;
    }
    if k < |trace[i].client.received| {
      assert log.arrival[k] == log.answering[k] == k;
    }
  }

  // ---------------------------------------------------------------------------------------------
  // The reply that a call returns
  // ---------------------------------------------------------------------------------------------

  lemma {:induction false} RunKeepsLog(env: Env, trace: seq<System>, events: seq<Event>, i: nat, j: nat, log: Log) returns (log': Log)
    requires Sound(env) && Usable(env) && Shared(env) && IsRun(env, trace, events) && i <= j < |trace|
    requires Safe(env, ScriptOf(env), trace[i], log)
    ensures Safe(env, ScriptOf(env), trace[j], log') && Grows(log, log')
    decreases j
  {
    hide Sound, Shared, Usable, Follows, Safe, Enabled, Next, ScriptOf;
    log' := log;
    if i < j {
      SoundFollows(env);
      var before := RunKeepsLog(env, trace, events, i, j - 1, log);
      log' := StepKeepsSafe(env, ScriptOf(env), trace[j - 1], events[j - 1], before);
      assert trace[j - 1 + 1] == Next(env, trace[j - 1], events[j - 1]);
    }
  }

  /** n different numbers below n are all of them. */
  lemma AllPlaces(places: seq<nat>, n: nat, k: nat)
    requires Places(places, n) && |places| == n && k < n
    ensures k in places
  {
    if k !in places {
      var used := set i | 0 <= i < |places| :: places[i];
      var others := Below(n) - {k};
      DifferentCount(places);
      SubsetCount(used, others);
      assert false;
    }
  }

  function Below(n: nat): (r: set<nat>)
    ensures |r| == n && forall k: nat :: k in r <==> k < n
  {
    if n == 0 then {} else Below(n - 1) + {n - 1}
  }

  lemma {:induction false} DifferentCount(places: seq<nat>)
    requires forall i, j | 0 <= i < j < |places| :: places[i] != places[j]
    ensures |set i | 0 <= i < |places| :: places[i]| == |places|
  {
    if places != [] {
      var init, last := places[..|places| - 1], places[|places| - 1];
      DifferentCount(init);
      var used := set i | 0 <= i < |init| :: init[i];
      assert (set i | 0 <= i < |places| :: places[i]) == used + {last} by {
        forall x ensures x in (set i | 0 <= i < |places| :: places[i]) <==> x in used + {last} {
          if x in used {
            var i :| 0 <= i < |init| && init[i] == x;
            assert places[i] == x;
          }
        }
      }
    }
  }

  lemma {:induction false} SubsetCount<T>(a: set<T>, b: set<T>)
    requires a <= b
    ensures |a| <= |b|
  {
    if a != {} {
      var x :| x in a;
      SubsetCount(a - {x}, b - {x});
    }
  }

  /** The requests that the received replies answer. */
  function Answering(log: Log, handled: nat, replies: nat, received: nat): (places: seq<nat>)
    requires |log.order| == handled && |log.answering| == replies && |log.arrival| == received
    requires Places(log.answering, handled) && Places(log.arrival, replies)
    ensures |places| == received && forall k | 0 <= k < received :: places[k] == log.order[log.answering[log.arrival[k]]]
  {
    seq(received, k requires 0 <= k < received => log.order[log.answering[log.arrival[k]]])
  }

  lemma AnsweringPlaces(log: Log, requests: nat, handled: nat, replies: nat, received: nat)
    requires |log.order| == handled && |log.answering| == replies && |log.arrival| == received
    requires Places(log.order, requests) && Places(log.answering, handled) && Places(log.arrival, replies)
    ensures Places(Answering(log, handled, replies, received), requests)
  {
    var places := Answering(log, handled, replies, received);
    forall i, j | 0 <= i < j < |places| ensures places[i] != places[j] {
      assert log.arrival[i] != log.arrival[j];
      assert log.answering[log.arrival[i]] != log.answering[log.arrival[j]];
    }
  }

  lemma LastAnswer(log: Log, log': Log, n: nat, handled: nat, replies: nat, handled': nat, replies': nat, received': nat)
    requires |log.order| == handled && |log.answering| == replies && |log.arrival| == n
    requires Places(log.order, n) && Places(log.answering, handled) && Places(log.arrival, replies)
    requires |log'.order| == handled' && |log'.answering| == replies' && |log'.arrival| == received' && received' > n
    requires Places(log'.order, n + 1) && Places(log'.answering, handled') && Places(log'.arrival, replies')
    requires Grows(log, log')
    ensures log'.order[log'.answering[log'.arrival[n]]] == n
  {
    AnsweringPlaces(log, n, handled, replies, n);
    AnsweringPlaces(log', n + 1, handled', replies', received');
    var places, places' := Answering(log, handled, replies, n), Answering(log', handled', replies', received');
    forall k | 0 <= k < n ensures places'[k] == places[k] {
      assert log'.arrival[k] == log.arrival[k];
      assert log'.answering[log.arrival[k]] == log.answering[log.arrival[k]];
    }
    var last := places'[n];
    if last < n {
      AllPlaces(places, n, last);
      assert false;
    }
  }

  /**
    A call that sends its request when no reply is outstanding, and that is still the last one when
    the next reply comes, returns the application's answer to its own request; whatever was
    duplicated or delayed, and in whatever order earlier requests were served.
  */
  lemma CallGetsOwnReply(env: Env, trace: seq<System>, events: seq<Event>, k: nat, i: nat) returns (m: nat)
    requires Sound(env) && Usable(env) && IsRun(env, trace, events) && k <= i < |trace|
    requires |trace[k].client.received| == |trace[k].client.requests| < |trace[i].client.received|
    requires |trace[i].client.requests| == |trace[k].client.requests| + 1
    ensures m < |trace[i].server.handled| && trace[i].server.session.Some?
    ensures var n := |trace[k].client.requests|;
            var request := trace[i].client.requests[n].bytes;
            env.parses(request) &&
            env.app(trace[i].server.handled[..m], trace[i].server.session.value, request) == Ok(trace[i].client.received[n])
  {
    hide Sound, Shared, Usable, IsRun, ScriptOf, FromClient, FromServer, NumbersAt, Ordered, ClientStateOk, Places, Linked, ClientOk;
    SoundIsShared(env);
    var log := RunIsSafe(env, trace, events, k);
    var log' := RunKeepsLog(env, trace, events, k, i, log);
    var n := |trace[k].client.requests|;
    LastAnswer(log, log', n, |trace[k].server.handled|, |trace[k].server.replies|, |trace[i].server.handled|, |trace[i].server.replies|,
               |trace[i].client.received|);
    PlaceBound(log'.arrival, |trace[i].server.replies|, n);
    PlaceBound(log'.answering, |trace[i].server.handled|, log'.arrival[n]);
    m := log'.answering[log'.arrival[n]];
  }

  lemma PlaceBound(places: seq<nat>, n: nat, k: nat)
    requires Places(places, n) && k < |places|
    ensures places[k] < n
  {
  }
}
