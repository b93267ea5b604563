/**
 Why a connection has to start clean.  `on_closed` leaves the queue, the pending promises and the fragment buffer in
 place, and `poll` drops only the first two, and those only while requests are queued; but `on_established` restarts
 the identifiers.  An answer of the new connection can then complete a future of the old one, or get lost behind the
 bytes left over, and an old request can be run.
 */
module Stale {
  import opened Bytes
  import opened Message
  import opened Calls
  import opened Remote
  import opened Service
  import opened Client
  import opened System
  import opened Epoch
  import opened Rounds

  // ----- Leftover promises -----

  /** The keys above `n`: those that `n` rounds of a new connection have not used up. */
  function Above(pending: map<u32, Ticket>, n: nat): map<u32, Ticket> {
    map k | k in pending && k > n :: pending[k]
  }

  lemma NextKeys(pending: map<u32, Ticket>, n: nat)
    requires n + 1 < TWO32
    ensures Above(pending, n) - {n + 1} == Above(pending, n + 1)
  {
  }

  /** Between two rounds of a run in which every call has been served and its answer taken up. */
  ghost predicate Between<S(!new)>(fs: Backend<S>, b0: S, s: State, sys: System<S>)
    requires Honest(fs)
  {
    && Quiet(sys) && sys.service.buffer == [] && sys.service.id == NthId(|sys.issued|)
    && sys.client.backend == Execute(fs, b0, sys.issued)
    && sys.service.pending == Above(s.pending, |sys.issued|) && |s.promises| <= |sys.service.promises|
    && (forall i | 0 <= i < |sys.issued| && sys.issued[i].ticket.Some? :: sys.issued[i].ticket.value >= |s.promises|)
  }

  /** Earlier futures' keys never stand in the way of a call. */
  lemma OldKeysLeaveRoom<S(!new)>(fs: Backend<S>, b0: S, s: State, sys: System<S>)
    requires Honest(fs) && Tickets(s) && Between(fs, b0, s, sys)
    ensures Room(sys)
    ensures forall k | k in sys.service.pending :: sys.service.pending[k] < |s.promises|
  {
    hide Execute, NthId, NextId;
  }

  lemma StaysBetween<S(!new)>(fs: Backend<S>, b0: S, s: State, sys: System<S>, end: System<S>, more: Issue)
    requires Honest(fs) && Between(fs, b0, s, sys) && |sys.issued| + 1 < TWO32
    requires Quiet(end) && end.service.buffer == [] && end.service.id == NthId(|sys.issued| + 1)
    requires end.issued == sys.issued + [more] && more.ticket == Some(|sys.service.promises|)
    requires end.client.backend == Execute(fs, b0, end.issued)
    requires end.service.pending == sys.service.pending - {|sys.issued| + 1}
    requires |end.service.promises| == |sys.service.promises| + 1
    ensures Between(fs, b0, s, end)
  {
    hide Quiet, Execute, NthId, Above;
    NextKeys(s.pending, |sys.issued|);
  }

  /** One more round, on a free identifier or on a taken one. */
  lemma NextRound<S(!new)>(env: Settings, fs: Backend<S>, b0: S, s: State, sys: System<S>, call: Call)
    returns (moves: seq<Move>)
    requires Honest(fs) && Reliable(fs, call) && !call.GetCreds? && Tickets(s) && Between(fs, b0, s, sys)
    requires NthId(|sys.issued| + 1) == |sys.issued| + 1
    ensures CanMove(env, fs, sys, moves)
    ensures var end := AfterMoves(env, fs, sys, moves);
            Between(fs, b0, s, end) && |end.issued| == |sys.issued| + 1
  {
    hide Execute, NthId, NextId, AnswerNow, Tickets, Reliable, CanMove, AfterMoves, Room, AfterMessage, Called, Above,
      Quiet;
    var more := Issue(Some(|sys.service.promises|), call);
    ReliableAnswers(fs, sys, call);
    var end := AfterRound(env, fs, sys, call);
    OldKeysLeaveRoom(fs, b0, s, sys);
    NextIsAnswer(fs, b0, sys, call, more);
    moves := Round(env, fs, sys, call);
    RoundEffect(env, fs, sys, call);
    assert end.issued == sys.issued + [more];
    hide AfterRound;
    StaysBetween(fs, b0, s, sys, end, more);
  }

  lemma {:induction false} SeveralRounds<S(!new)>(
    env: Settings, fs: Backend<S>, b0: S, s: State, sys: System<S>, call: Call, n: nat)
    returns (moves: seq<Move>)
    requires Honest(fs) && Reliable(fs, call) && !call.GetCreds? && Tickets(s) && Between(fs, b0, s, sys)
    requires forall j | |sys.issued| < j <= |sys.issued| + n :: NthId(j) == j
    ensures CanMove(env, fs, sys, moves)
    ensures var end := AfterMoves(env, fs, sys, moves);
            Between(fs, b0, s, end) && |end.issued| == |sys.issued| + n
    decreases n
  {
    hide Between, Tickets, Reliable, NthId, AfterMove, Possible;
    if n == 0 {
      moves := [];
    } else {
      var first := NextRound(env, fs, b0, s, sys, call);
      hide CanMove, AfterMoves;
      var mid := AfterMoves(env, fs, sys, first);
      var later := SeveralRounds(env, fs, b0, s, mid, call, n - 1);
      MovesAppend(env, fs, sys, first, later);
      moves := first + later;
    }
  }

  lemma {:induction false} SmallIds(k: nat)
    requires k < TWO32
    ensures forall i | 0 <= i <= k :: NthId(i) == i
  {
    if k > 0 {
      SmallIds(k - 1);
      NthIdValue(k);
    }
  }

  /**
   What an earlier connection may leave behind for a service that has let the next client in: queued requests, promises,
   and a part of a message.
   */
  ghost predicate Leftover(s: State) {
    s.connection.None? && s.authenticated && !s.shutdown && Tickets(s)
  }

  lemma Starts<S(!new)>(env: Settings, fs: Backend<S>, s: State, c: Conn, client: ClientState<S>)
    requires Honest(fs) && Leftover(s) && s.requests == [] && s.buffer == []
    ensures Between(fs, client.backend, s, Connect(env, s, c, client))
  {
    StartsQuiet(env, s, c, client);
    assert Above(s.pending, 0) == s.pending by {
      forall k | k in s.pending ensures k > 0 { PendingWaits(s, k); }
    }
    hide Connect, Tickets;
  }

  /**
   Whichever promise is left pending when a connection starts with empty queue and buffer, there is a run in which the
   answer to a new call completes it, while the call's own future breaks.
   */
  lemma LeftoverIsMisdelivered<S(!new)>(
    env: Settings, fs: Backend<S>, s: State, c: Conn, client: ClientState<S>, call: Call, k: u32)
    returns (moves: seq<Move>)
    requires Honest(fs) && Reliable(fs, call) && !call.GetCreds?
    requires Leftover(s) && s.requests == [] && s.buffer == [] && k in s.pending
    ensures k >= 1 && s.pending[k] < |s.promises| && s.promises[s.pending[k]].Waiting?
    ensures CanMove(env, fs, Connect(env, s, c, client), moves)
    ensures var end := AfterMoves(env, fs, Connect(env, s, c, client), moves);
            && |end.issued| == k && AnswerAt(fs, client.backend, end.issued, k - 1).Ok?
            && s.pending[k] < |end.service.promises| && end.issued[k - 1].ticket.Some?
            && end.service.promises[s.pending[k]] == Fulfilled(AnswerAt(fs, client.backend, end.issued, k - 1).value)
            && end.issued[k - 1].ticket.value < |end.service.promises|
            && end.service.promises[end.issued[k - 1].ticket.value] == Dropped
  {
    var b0, start := client.backend, Connect(env, s, c, client);
    PendingWaits(s, k);
    SmallIds(k);
    Starts(env, fs, s, c, client);
    StartsQuiet(env, s, c, client);
    hide Quiet, Tickets, Reliable, Connect, AfterMove, Possible, CanMove, AfterMoves, Execute, AnswerAt, Room;
    var first := SeveralRounds(env, fs, b0, s, start, call, k - 1);
    var mid := AfterMoves(env, fs, start, first);
    var more := Issue(Some(|mid.service.promises|), call);
    ReliableAnswers(fs, mid, call);
    NextIsAnswer(fs, b0, mid, call, more);
    OldKeysLeaveRoom(fs, b0, s, mid);
    var last := Round(env, fs, mid, call);
    RoundEffect(env, fs, mid, call);
    MovesAppend(env, fs, start, first, last);
    moves := first + last;
    hide AfterMessage, Called, NthId, AnswerNow, NextId;
    assert AfterRound(env, fs, mid, call).issued == mid.issued + [more];
  }

  lemma PendingWaits(s: State, k: u32)
    requires Tickets(s) && k in s.pending
    ensures k != 0 && s.pending[k] < |s.promises| && s.promises[s.pending[k]].Waiting?
  {
  }

  // ----- A clean start is exactly what correlation needs -----

  function Steady<S>(b: S, c: Call): (S, Result<Reply>) {
    (b, Ok(Blank(c)))
  }

  /** A request left in the queue is run although no call of this connection made it. */
  lemma OldRequestIsServed<S(!new)>(env: Settings, fs: Backend<S>, s: State, c: Conn, client: ClientState<S>)
    returns (moves: seq<Move>)
    requires Honest(fs) && Leftover(s) && s.requests != []
    ensures CanMove(env, fs, Connect(env, s, c, client), moves)
    ensures !Correlated(fs, client.backend, s.promises, AfterMoves(env, fs, Connect(env, s, c, client), moves))
  {
    hide MessageOf, Tickets, Dispatch, Fate, Execute, TicketsInOrder;
    var start, r := Connect(env, s, c, client), s.requests[0];
    var polled := AfterMove(env, fs, start, ServicePoll);
    var written := AfterMove(env, fs, polled, ServiceWrites);
    assert written.toClient == [r] && written.served == 0 && written.issued == [];
    var end := AfterMove(env, fs, written, ClientReads(|r|, true));
    assert end.served == 1 && end.issued == [];
    hide AfterMove, Connect;
    OneMoveMore(env, fs, written, ClientReads(|r|, true), []);
    OneMoveMore(env, fs, polled, ServiceWrites, [ClientReads(|r|, true)] + []);
    OneMoveMore(env, fs, start, ServicePoll, [ServiceWrites] + ([ClientReads(|r|, true)] + []));
    moves := [ServicePoll] + ([ServiceWrites] + ([ClientReads(|r|, true)] + []));
  }

  /** A broken future, or one that has another message, is not correlated. */
  lemma Mismatch<S(!new)>(fs: Backend<S>, b0: S, before: seq<Promise>, sys: System<S>, i: nat)
    requires Honest(fs) && i < |sys.issued| && sys.issued[i].ticket.Some?
    requires sys.issued[i].ticket.value < |sys.service.promises|
    requires sys.service.promises[sys.issued[i].ticket.value] != Fate(fs, b0, sys.issued, sys.delivered, i)
    ensures !Correlated(fs, b0, before, sys)
  {
    hide Fate, Execute, TicketsInOrder;
  }

  /** With the first identifier taken, the first call breaks. */
  lemma FirstCallBreaks<S(!new)>(
    env: Settings, fs: Backend<S>, s: State, c: Conn, client: ClientState<S>, call: Call)
    returns (moves: seq<Move>)
    requires Honest(fs) && !call.GetCreds? && Leftover(s) && s.requests == [] && 1 in s.pending
    ensures CanMove(env, fs, Connect(env, s, c, client), moves)
    ensures !Correlated(fs, client.backend, s.promises, AfterMoves(env, fs, Connect(env, s, c, client), moves))
  {
    var start := Connect(env, s, c, client);
    var end := AfterCall(start, call);
    StartsQuiet(env, s, c, client);
    CallKeeps(start, call);
    CalledState(start, call);
    assert NextId(0) == 1;
    hide Connect, Quiet, Tickets, Fate, NextId, Room, AfterCall;
    assert AfterMove(env, fs, start, MakeCall(call)) == end;
    OneMoveMore(env, fs, start, MakeCall(call), []);
    moves := [MakeCall(call)] + [];
    FateKinds(fs, client.backend, end.issued, end.delivered, 0);
    assert end.service.promises == Called(start, call).promises;
    Mismatch(fs, client.backend, s.promises, end, 0);
  }

  /** With bytes left in the buffer, the first answer does not arrive. */
  lemma FirstAnswerIsLost<S(!new)>(
    env: Settings, fs: Backend<S>, s: State, c: Conn, client: ClientState<S>, call: Call)
    returns (moves: seq<Move>)
    requires Honest(fs) && Reliable(fs, call) && !call.GetCreds?
    requires Leftover(s) && s.requests == [] && s.buffer != [] && 1 !in s.pending
    ensures CanMove(env, fs, Connect(env, s, c, client), moves)
    ensures !Correlated(fs, client.backend, s.promises, AfterMoves(env, fs, Connect(env, s, c, client), moves))
  {
    var start := Connect(env, s, c, client);
    var more := Issue(Some(|s.promises|), call);
    StartsQuiet(env, s, c, client);
    assert NextId(0) == 1 && NthId(0) == 0 && Execute(fs, client.backend, []) == client.backend;
    hide Connect, Quiet, Tickets, NextId, NthId, Room, Reliable, AnswerNow, Execute, AnswerAt;
    ReliableAnswers(fs, start, call);
    NextIsAnswer(fs, client.backend, start, call, more);
    moves := Round(env, fs, start, call);
    SpoiltRound(env, fs, start, call);
    hide AfterMessage, Called, AfterMoves, CanMove;
    var end := AfterMoves(env, fs, start, moves);
    assert end.issued == [more] && end.delivered == 1;
    FirstFate(fs, client.backend, end.issued);
    Mismatch(fs, client.backend, s.promises, end, 0);
  }

  lemma FirstFate<S(!new)>(fs: Backend<S>, b0: S, issued: seq<Issue>)
    requires Honest(fs) && issued != [] && AnswerAt(fs, b0, issued, 0).Ok?
    ensures Fate(fs, b0, issued, 1, 0) == Fulfilled(AnswerAt(fs, b0, issued, 0).value)
  {
    hide AnswerAt;
  }

  /** Anything left over spoils some run. */
  lemma LeftoverSpoils<S(!new)>(env: Settings, fs: Backend<S>, s: State, c: Conn, client: ClientState<S>, call: Call)
    returns (moves: seq<Move>)
    requires Honest(fs) && Reliable(fs, call) && !call.GetCreds?
    requires Leftover(s) && !Clean(s)
    ensures CanMove(env, fs, Connect(env, s, c, client), moves)
    ensures !Correlated(fs, client.backend, s.promises, AfterMoves(env, fs, Connect(env, s, c, client), moves))
  {
    hide Correlated, Connect, CanMove, AfterMoves, Reliable, Fate, AnswerAt, Tickets;
    if s.requests != [] {
      moves := OldRequestIsServed(env, fs, s, c, client);
    } else if s.buffer == [] {
      var k :| k in s.pending;
      moves := LeftoverIsMisdelivered(env, fs, s, c, client, call, k);
      var end := AfterMoves(env, fs, Connect(env, s, c, client), moves);
      FateKinds(fs, client.backend, end.issued, end.delivered, k - 1);
      Mismatch(fs, client.backend, s.promises, end, k - 1);
    } else if 1 in s.pending {
      moves := FirstCallBreaks(env, fs, s, c, client, call);
    } else {
      moves := FirstAnswerIsLost(env, fs, s, c, client, call);
    }
  }

  /**
   For an authenticated service without a connection: on the next connection every run, with any backend, is correlated
   exactly when the start is clean, with no request queued, no promise pending and an empty fragment buffer.
   */
  lemma CorrelationIffClean<S(!new)>(env: Settings, s: State, c: Conn, client: ClientState<S>)
    requires Leftover(s)
    ensures (forall fs: Backend<S>, moves: seq<Move>
               | Honest(fs) && CanMove(env, fs, Connect(env, s, c, client), moves) ::
               Correlated(fs, client.backend, s.promises, AfterMoves(env, fs, Connect(env, s, c, client), moves)))
            <==> Clean(s)
  {
    hide Correlated, Connect, CanMove, AfterMoves, Tickets;
    if Clean(s) {
      forall fs: Backend<S>, moves: seq<Move> | Honest(fs) && CanMove(env, fs, Connect(env, s, c, client), moves)
        ensures Correlated(fs, client.backend, s.promises, AfterMoves(env, fs, Connect(env, s, c, client), moves))
      {
        Correlation(env, fs, s, c, client, moves, AfterMoves(env, fs, Connect(env, s, c, client), moves));
      }
    } else {
      var fs: Backend<S> := Steady;
      assert forall b: S, call :: fs(b, call) == Steady(b, call);
      assert Honest(fs) && Reliable(fs, GetAttr([]));
      var moves := LeftoverSpoils(env, fs, s, c, client, GetAttr([]));
    }
  }

  // ----- Such starts are reachable -----

  /** The header's token is accepted, or no authenticator is configured. */
  predicate LetsIn(env: Settings, token: Bytes) {
    AfterFilter(env, START, token).authenticated
  }

  /** A service that has just let a client in and written its first request. */
  function Written(request: Bytes): State
    requires |request| >= 5
  {
    State(Some(1), 1, false, true, [], [], map[1 := 0], [Waiting], [WithId(request, 1)], false)
  }

  function Opening(token: Bytes, request: Bytes, later: seq<Step>): seq<Step> {
    [Filter(token)] + ([Established(1)] + ([Perform(request)] + ([Poll] + ([Writable] + later))))
  }

  lemma Opens(env: Settings, token: Bytes, request: Bytes, later: seq<Step>)
    requires LetsIn(env, token) && |request| >= 5 && CanRun(env, Written(request), later)
    ensures CanRun(env, START, Opening(token, request, later))
    ensures Run(env, START, Opening(token, request, later)) == Run(env, Written(request), later)
  {
    hide WithId, MessageOf, CanRun, Run;
    var s1 := START.(authenticated := true);
    var s2 := s1.(connection := Some(1));
    var s3 := AfterPerform(s2, request);
    var s4 := AfterPoll(s3);
    assert AfterWritable(s4) == Written(request);
    RunOne(env, s4, Writable, later);
    RunOne(env, s3, Poll, [Writable] + later);
    RunOne(env, s2, Perform(request), [Poll] + ([Writable] + later));
    RunOne(env, s1, Established(1), [Perform(request)] + ([Poll] + ([Writable] + later)));
    RunOne(env, START, Filter(token),
                [Established(1)] + ([Perform(request)] + ([Poll] + ([Writable] + later))));
  }

  /** A connection lost after a request was written leaves that request's promise to the next one. */
  lemma LeftoverPromiseIsReachable(env: Settings, token: Bytes, request: Bytes) returns (steps: seq<Step>)
    requires LetsIn(env, token) && |request| >= 5
    ensures CanRun(env, START, steps)
    ensures var s := Run(env, START, steps);
            Leftover(s) && s.requests == [] && s.pending == map[1 := 0] && s.promises == [Waiting] && s.buffer == []
  {
    hide WithId, Tickets;
    var s1 := Written(request);
    var s2 := AfterClosed(s1, 1);
    assert AfterFilter(env, s2, token) == s2.(authenticated := true);
    RunOne(env, s2, Filter(token), []);
    RunOne(env, s2, Poll, [Filter(token)] + []);
    RunOne(env, s1, Closed(1), [Poll] + ([Filter(token)] + []));
    steps := Opening(token, request, [Closed(1)] + ([Poll] + ([Filter(token)] + [])));
    Opens(env, token, request, [Closed(1)] + ([Poll] + ([Filter(token)] + [])));
    hide CanRun, Run, Opening;
    ReachableTickets(env, steps);
  }

  /**
   A connection lost in the middle of an answer, with another request still queued, leaves the first bytes of that
   answer to the next one: the poll that drops queue and promises does not touch the buffer.
   */
  lemma LeftoverBufferIsReachable(env: Settings, token: Bytes, request: Bytes, other: Bytes, part: Bytes)
    returns (steps: seq<Step>)
    requires LetsIn(env, token) && |request| >= 5 && |other| >= 5
    ensures CanRun(env, START, steps)
    ensures var s := Run(env, START, steps);
            && Leftover(s) && s.requests == [] && s.pending == map[] && s.promises == [Dropped, Dropped]
            && s.buffer == part
  {
    hide WithId, Tickets;
    var s1 := Written(request);
    var s2 := AfterPerform(s1, other);
    var s3 := AfterReceive(env, s2, part, false);
    var s4 := AfterClosed(s3, 1);
    var s5 := AfterPoll(s4);
    assert AfterFilter(env, s5, token) == s5.(authenticated := true);
    assert 0 in s4.pending.Values && 1 in s4.pending.Values by { assert s4.pending[1] == 0 && s4.pending[2] == 1; }
    var end := [Poll] + ([Filter(token)] + []);
    RunOne(env, s5, Filter(token), []);
    RunOne(env, s4, Poll, [Filter(token)] + []);
    RunOne(env, s3, Closed(1), end);
    RunOne(env, s2, Receive(part, false), [Closed(1)] + end);
    RunOne(env, s1, Perform(other), [Receive(part, false)] + ([Closed(1)] + end));
    steps := Opening(token, request, [Perform(other)] + ([Receive(part, false)] + ([Closed(1)] + end)));
    Opens(env, token, request, [Perform(other)] + ([Receive(part, false)] + ([Closed(1)] + end)));
    hide CanRun, Run, Opening;
    ReachableTickets(env, steps);
  }

  /** A connection lost and replaced before the service polls leaves a queued request to the next one. */
  lemma LeftoverQueueIsReachable(env: Settings, token: Bytes, request: Bytes, other: Bytes) returns (steps: seq<Step>)
    requires LetsIn(env, token) && |request| >= 5 && |other| >= 5
    ensures CanRun(env, START, steps)
    ensures var s := Run(env, START, steps); Leftover(s) && s.requests == [WithId(other, 2)]
  {
    hide WithId, Tickets;
    var s1 := Written(request);
    var s2 := AfterPerform(s1, other);
    var s3 := AfterClosed(s2, 1);
    assert AfterFilter(env, s3, token) == s3.(authenticated := true);
    var end := [Closed(1)] + ([Filter(token)] + []);
    RunOne(env, s3, Filter(token), []);
    RunOne(env, s2, Closed(1), [Filter(token)] + []);
    RunOne(env, s1, Perform(other), end);
    steps := Opening(token, request, [Perform(other)] + end);
    Opens(env, token, request, [Perform(other)] + end);
    hide CanRun, Run, Opening;
    ReachableTickets(env, steps);
  }
}
