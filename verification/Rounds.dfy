/**
 One call after the other: what a call does to a system that has nothing else to do, from the moment it is made
 until its answer is taken up, and what becomes of it when it throws.
 */
module Rounds {
  import opened Bytes
  import opened Codec
  import opened Message
  import opened Calls
  import opened Remote
  import opened Service
  import opened Client
  import opened System
  import opened Epoch

  /** A connected, authenticated service and its provider with nothing to do. */
  predicate Quiet<S>(sys: System<S>) {
    && sys.service.connection.Some? && sys.service.authenticated && !sys.service.shutdown
    && Idle(sys) && sys.client.buffer == []
  }

  /** The request of a call made now, and its answer. */
  function RequestNow<S>(sys: System<S>, call: Call): Bytes {
    RequestMessage(NextId(sys.service.id), call)
  }

  function AnswerNow<S(!new)>(fs: Backend<S>, sys: System<S>, call: Call): Result<Bytes>
    requires Honest(fs)
  {
    Answer(NextId(sys.service.id), TypeCode(call), Normal(call), fs(sys.client.backend, Normal(call)).1)
  }

  /** The service after a call has been made, and its request written. */
  function Called<S>(sys: System<S>, call: Call): State {
    var s := AfterCall(sys, call).service;
    s.(requests := [], sent := s.sent + [RequestNow(sys, call)], armed := false)
  }

  /** The system after a call has been made, written, served, answered and the answer taken up. */
  function AfterRound<S(!new)>(env: Settings, fs: Backend<S>, sys: System<S>, call: Call): System<S>
    requires Honest(fs) && AnswerNow(fs, sys, call).Ok?
  {
    var a := AnswerNow(fs, sys, call).value;
    System(AfterMessage(env, Called(sys, call).(buffer := []), sys.service.buffer + a),
           sys.client.(backend := fs(sys.client.backend, Normal(call)).0, sent := sys.client.sent + [a],
                       armed := false),
           [], [], sys.issued + [Issue(Some(|sys.service.promises|), call)], sys.served + 1, sys.delivered + 1)
  }

  lemma OneMoveMore<S(!new)>(env: Settings, fs: Backend<S>, sys: System<S>, move: Move, later: seq<Move>)
    requires Honest(fs) && Possible(sys, move) && CanMove(env, fs, AfterMove(env, fs, sys, move), later)
    ensures CanMove(env, fs, sys, [move] + later)
    ensures AfterMoves(env, fs, sys, [move] + later) == AfterMoves(env, fs, AfterMove(env, fs, sys, move), later)
  {
    hide AfterMove, Possible;
    assert ([move] + later)[1..] == later;
  }

  /** The call's half of a round: made, polled and written. */
  lemma Calling<S(!new)>(env: Settings, fs: Backend<S>, sys: System<S>, call: Call, later: seq<Move>)
    returns (moves: seq<Move>)
    requires Honest(fs) && Quiet(sys) && !call.GetCreds? && Room(sys)
    requires var mid := AfterCall(sys, call).(service := Called(sys, call), toClient := [RequestNow(sys, call)]);
             CanMove(env, fs, mid, later)
    ensures CanMove(env, fs, sys, moves)
    ensures var mid := AfterCall(sys, call).(service := Called(sys, call), toClient := [RequestNow(sys, call)]);
            AfterMoves(env, fs, sys, moves) == AfterMoves(env, fs, mid, later)
  {
    var sys1 := AfterCall(sys, call);
    assert sys1.service.requests == [RequestNow(sys, call)] by {
      RequestHasHeader(0, call);
      SetIdLast(0, NextId(sys.service.id), TypeCode(call), RequestFields(call));
    }
    hide AfterCall, RequestMessage, CanMove, AfterMoves, Room, RequestNow, NextId;
    assert sys1.service.connection.Some? && !sys1.service.shutdown && sys1.toClient == [] by { CallKeeps(sys, call); }
    var sys2 := sys1.(service := AfterPoll(sys1.service));
    assert sys2.service.requests[1..] == [];
    assert AfterMove(env, fs, sys2, ServiceWrites)
        == sys1.(service := Called(sys, call), toClient := [RequestNow(sys, call)]);
    OneMoveMore(env, fs, sys2, ServiceWrites, later);
    OneMoveMore(env, fs, sys1, ServicePoll, [ServiceWrites] + later);
    OneMoveMore(env, fs, sys, MakeCall(call), [ServicePoll] + ([ServiceWrites] + later));
    moves := [MakeCall(call)] + ([ServicePoll] + ([ServiceWrites] + later));
  }

  lemma CallKeeps<S>(sys: System<S>, call: Call)
    ensures var sys' := AfterCall(sys, call);
            && sys'.service.connection == sys.service.connection && sys'.service.shutdown == sys.service.shutdown
            && sys'.service.buffer == sys.service.buffer && sys'.client == sys.client
            && sys'.toClient == sys.toClient && sys'.toService == sys.toService
            && sys'.served == sys.served && sys'.delivered == sys.delivered
            && (sys.service.authenticated ==> sys'.issued == sys.issued + [Issue(Some(|sys.service.promises|), call)])
  {
    hide RequestMessage, NextId, WithId;
    RequestHasHeader(0, call);
  }

  /** The provider takes up the whole request and answers it. */
  lemma Answering<S(!new)>(env: Settings, fs: Backend<S>, mid: System<S>, r: Bytes, b: S, a: Bytes)
    returns (end: System<S>)
    requires Honest(fs) && mid.toClient == [r] && mid.client.buffer == [] && mid.client.answers == []
    requires mid.toService == [] && Dispatch(fs, mid.client.backend, r) == (b, Ok(a))
    ensures end == mid.(toClient := [], served := mid.served + 1, toService := [a],
                        client := mid.client.(backend := b, sent := mid.client.sent + [a], armed := false))
    ensures CanMove(env, fs, mid, [ClientReads(|r|, true), ClientWrites])
    ensures AfterMoves(env, fs, mid, [ClientReads(|r|, true), ClientWrites]) == end
  {
    hide Dispatch;
    assert r[..|r|] == r && [] + r == r;
    var served := mid.(toClient := [], served := mid.served + 1,
                       client := mid.client.(backend := b, answers := [a], armed := true));
    assert AfterMove(env, fs, mid, ClientReads(|r|, true)) == served;
    end := AfterMove(env, fs, served, ClientWrites);
    hide AfterMove;
    OneMoveMore(env, fs, served, ClientWrites, []);
    OneMoveMore(env, fs, mid, ClientReads(|r|, true), [ClientWrites]);
    assert [ClientWrites] == [ClientWrites] + [];
    assert [ClientReads(|r|, true), ClientWrites] == [ClientReads(|r|, true)] + [ClientWrites];
  }

  /** The service takes up the whole answer, behind what is left in its buffer. */
  lemma Taking<S(!new)>(env: Settings, fs: Backend<S>, sys: System<S>, a: Bytes)
    requires Honest(fs) && sys.toService == [a]
    ensures CanMove(env, fs, sys, [ServiceReads(|a|, true)])
    ensures AfterMoves(env, fs, sys, [ServiceReads(|a|, true)])
            == sys.(service := AfterMessage(env, sys.service.(buffer := []), sys.service.buffer + a),
                    toService := [], delivered := sys.delivered + 1)
  {
    hide AfterMessage;
    assert a[..|a|] == a;
    OneMoveMore(env, fs, sys, ServiceReads(|a|, true), []);
    assert [ServiceReads(|a|, true)] == [ServiceReads(|a|, true)] + [];
  }

  lemma Round<S(!new)>(env: Settings, fs: Backend<S>, sys: System<S>, call: Call) returns (moves: seq<Move>)
    requires Honest(fs) && Quiet(sys) && !call.GetCreds? && Room(sys) && AnswerNow(fs, sys, call).Ok?
    ensures CanMove(env, fs, sys, moves)
    ensures AfterMoves(env, fs, sys, moves) == AfterRound(env, fs, sys, call)
  {
    var r, a := RequestNow(sys, call), AnswerNow(fs, sys, call).value;
    CallKeeps(sys, call);
    RequestIsServed(fs, sys.client.backend, NextId(sys.service.id), call);
    hide Dispatch, AfterCall, RequestMessage, RequestNow, AnswerNow, Answer, Room, NextId, Normal, AfterMessage,
      CanMove, AfterMoves;
    var mid := AfterCall(sys, call).(service := Called(sys, call), toClient := [r]);
    var end := Answering(env, fs, mid, r, fs(sys.client.backend, Normal(call)).0, a);
    Taking(env, fs, end, a);
    MovesAppend(env, fs, mid, [ClientReads(|r|, true), ClientWrites], [ServiceReads(|a|, true)]);
    moves := Calling(env, fs, sys, call, [ClientReads(|r|, true), ClientWrites] + [ServiceReads(|a|, true)]);
  }

  lemma AnswerHas<S(!new)>(fs: Backend<S>, sys: System<S>, call: Call)
    requires Honest(fs) && !call.GetCreds? && AnswerNow(fs, sys, call).Ok?
    ensures var a := AnswerNow(fs, sys, call).value;
            |a| >= 5 && IdOf(a) == NextId(sys.service.id) && a[4] != GETCREDS_RESPONSE
  {
    hide MessageOf, ReplyFields, Normal, IdOf, NextId;
    HeaderOf(NextId(sys.service.id), ResponseType(TypeCode(call)),
             ReplyFields(Normal(call), fs(sys.client.backend, Normal(call)).1.value));
  }

  /** The service once the call has been made and its request written. */
  lemma CalledState<S>(sys: System<S>, call: Call)
    requires sys.service.authenticated
    ensures var s, id := sys.service, NextId(sys.service.id);
            Called(sys, call)
            == s.(id := id, requests := [], sent := s.sent + [RequestNow(sys, call)], armed := false,
                  promises := s.promises + [if id in s.pending then Dropped else Waiting],
                  pending := if id in s.pending then s.pending else s.pending[id := |s.promises|])
  {
    hide RequestMessage, NextId, WithId;
    RequestHasHeader(0, call);
  }

  lemma TakesUp(env: Settings, s: State, id: u32, a: Bytes)
    requires |a| >= 5 && IdOf(a) == id && a[4] != GETCREDS_RESPONSE && s.buffer == []
    requires id in s.pending && s.pending[id] < |s.promises|
    ensures AfterMessage(env, s.(buffer := []), a)
            == s.(promises := s.promises[s.pending[id] := Fulfilled(a)], pending := s.pending - {id})
  {
    hide IdOf, AfterCredentials;
    assert s.(buffer := []) == s;
  }

  lemma ServiceAfterRound<S(!new)>(env: Settings, fs: Backend<S>, sys: System<S>, call: Call)
    requires Honest(fs) && sys.service.buffer == [] && AnswerNow(fs, sys, call).Ok?
    ensures AfterRound(env, fs, sys, call).service
            == AfterMessage(env, Called(sys, call).(buffer := []), AnswerNow(fs, sys, call).value)
  {
    hide AnswerNow, Called, AfterMessage;
    assert [] + AnswerNow(fs, sys, call).value == AnswerNow(fs, sys, call).value;
  }

  /** On a free identifier the call gets its own answer. */
  lemma FreeRound<S(!new)>(env: Settings, fs: Backend<S>, sys: System<S>, call: Call)
    requires Honest(fs) && Quiet(sys) && sys.service.buffer == [] && !call.GetCreds? && AnswerNow(fs, sys, call).Ok?
    requires NextId(sys.service.id) !in sys.service.pending
    ensures var s := sys.service;
            AfterRound(env, fs, sys, call).service
            == s.(id := NextId(s.id), sent := s.sent + [RequestNow(sys, call)], armed := false,
                  promises := s.promises + [Fulfilled(AnswerNow(fs, sys, call).value)])
  {
    hide NextId, AnswerNow, RequestNow, Called, AfterMessage, AfterRound;
    CalledState(sys, call);
    AnswerHas(fs, sys, call);
    ServiceAfterRound(env, fs, sys, call);
    var s, id, a := sys.service, NextId(sys.service.id), AnswerNow(fs, sys, call).value;
    TakesUp(env, Called(sys, call), id, a);
    FreeTicket(s.pending, s.promises, id, Fulfilled(a));
  }

  lemma FreeTicket(pending: map<u32, Ticket>, promises: seq<Promise>, id: u32, p: Promise)
    requires id !in pending
    ensures pending[id := |promises|] - {id} == pending
    ensures (promises + [Waiting])[|promises| := p] == promises + [p]
  {
  }

  /** On a taken identifier the new future breaks and the old one receives the answer. */
  lemma TakenRound<S(!new)>(env: Settings, fs: Backend<S>, sys: System<S>, call: Call)
    requires Honest(fs) && Quiet(sys) && sys.service.buffer == [] && !call.GetCreds? && AnswerNow(fs, sys, call).Ok?
    requires NextId(sys.service.id) in sys.service.pending
    requires sys.service.pending[NextId(sys.service.id)] < |sys.service.promises|
    ensures var s, id := sys.service, NextId(sys.service.id);
            AfterRound(env, fs, sys, call).service
            == s.(id := id, sent := s.sent + [RequestNow(sys, call)], armed := false, pending := s.pending - {id},
                  promises := s.promises[s.pending[id] := Fulfilled(AnswerNow(fs, sys, call).value)] + [Dropped])
  {
    hide NextId, AnswerNow, RequestNow, Called, AfterMessage, AfterRound;
    CalledState(sys, call);
    AnswerHas(fs, sys, call);
    ServiceAfterRound(env, fs, sys, call);
    var s, id, a := sys.service, NextId(sys.service.id), AnswerNow(fs, sys, call).value;
    TakesUp(env, Called(sys, call), id, a);
    TakenTicket(s.promises, s.pending[id], Fulfilled(a));
  }

  lemma TakenTicket(promises: seq<Promise>, t: Ticket, p: Promise)
    requires t < |promises|
    ensures (promises + [Dropped])[t := p] == promises[t := p] + [Dropped]
  {
  }

  /**
   With an empty buffer the answer reaches the future that is pending under its identifier: the call's own, or an older
   one if the identifier was taken, in which case the call's own future breaks.  The identifier is free afterwards.
   */
  lemma RoundEffect<S(!new)>(env: Settings, fs: Backend<S>, sys: System<S>, call: Call)
    requires Honest(fs) && Quiet(sys) && sys.service.buffer == [] && !call.GetCreds? && AnswerNow(fs, sys, call).Ok?
    requires var id := NextId(sys.service.id);
             id in sys.service.pending ==> sys.service.pending[id] < |sys.service.promises|
    ensures var end, id := AfterRound(env, fs, sys, call), NextId(sys.service.id);
            var s, done := sys.service, Fulfilled(AnswerNow(fs, sys, call).value);
            && Quiet(end) && end.service.buffer == [] && end.service.id == id
            && end.service.pending == s.pending - {id}
            && end.service.promises == if id in s.pending then s.promises[s.pending[id] := done] + [Dropped]
                                       else s.promises + [done]
  {
    hide NextId, AnswerNow, RequestNow, Called, AfterMessage;
    if NextId(sys.service.id) in sys.service.pending {
      TakenRound(env, fs, sys, call);
    } else {
      FreeRound(env, fs, sys, call);
      assert sys.service.pending - {NextId(sys.service.id)} == sys.service.pending;
    }
  }

  /** Behind bytes left in the buffer no answer reaches its future as it was sent. */
  lemma SpoiltRound<S(!new)>(env: Settings, fs: Backend<S>, sys: System<S>, call: Call)
    requires Honest(fs) && Quiet(sys) && sys.service.buffer != [] && !call.GetCreds? && AnswerNow(fs, sys, call).Ok?
    requires NextId(sys.service.id) !in sys.service.pending
    ensures var promises, t := AfterRound(env, fs, sys, call).service.promises, |sys.service.promises|;
            t < |promises| && promises[t] != Fulfilled(AnswerNow(fs, sys, call).value)
  {
    CalledState(sys, call);
    hide NextId, AnswerNow, RequestNow, Called, IdOf, DecodeData;
    var a := AnswerNow(fs, sys, call).value;
    assert |sys.service.buffer + a| > |a|;
  }

  /** The answer to a call made now is the answer to the next request. */
  lemma NextIsAnswer<S(!new)>(fs: Backend<S>, b0: S, sys: System<S>, call: Call, more: Issue)
    requires Honest(fs) && more.call == call && sys.service.id == NthId(|sys.issued|)
    requires sys.client.backend == Execute(fs, b0, sys.issued)
    ensures AnswerAt(fs, b0, sys.issued + [more], |sys.issued|) == AnswerNow(fs, sys, call)
    ensures Execute(fs, b0, sys.issued + [more]) == fs(sys.client.backend, Normal(call)).0
    ensures NextId(sys.service.id) == NthId(|sys.issued| + 1)
  {
    hide Answer, Normal;
    assert (sys.issued + [more])[..|sys.issued|] == sys.issued;
  }

  /** The backend never throws on this call. */
  ghost predicate Reliable<S(!new)>(fs: Backend<S>, call: Call) {
    forall b :: fs(b, Normal(call)).1.Ok?
  }

  lemma ReliableAnswers<S(!new)>(fs: Backend<S>, sys: System<S>, call: Call)
    requires Honest(fs) && Reliable(fs, call)
    ensures AnswerNow(fs, sys, call).Ok?
  {
    hide MessageOf, ReplyFields, Normal;
  }

  /** A service that has let the next client in and has nothing queued starts quiet. */
  lemma StartsQuiet<S(!new)>(env: Settings, s: State, c: Conn, client: ClientState<S>)
    requires s.connection.None? && s.authenticated && !s.shutdown && s.requests == []
    ensures var sys := Connect(env, s, c, client);
            && Quiet(sys) && sys.issued == [] && sys.served == 0 && sys.delivered == 0
            && sys.service.id == 0 && Room(sys)
            && sys.service.pending == s.pending && sys.service.promises == s.promises && sys.service.buffer == s.buffer
            && sys.client.backend == client.backend
  {
    hide MessageOf;
  }

  /** The provider takes up a request whose call throws: it is run and nothing is answered. */
  lemma ThrowingRead<S(!new)>(env: Settings, fs: Backend<S>, sys: System<S>, id: u32, call: Call)
    requires Honest(fs) && fs(sys.client.backend, Normal(call)).1.Throw?
    requires sys.toClient == [RequestMessage(id, call)] && sys.client.buffer == []
    ensures var move := ClientReads(|RequestMessage(id, call)|, true);
            && Possible(sys, move)
            && AfterMove(env, fs, sys, move)
               == sys.(toClient := [], served := sys.served + 1,
                       client := sys.client.(backend := fs(sys.client.backend, Normal(call)).0))
  {
    hide Dispatch, RequestMessage, Normal;
    RequestIsServed(fs, sys.client.backend, id, call);
    var r := RequestMessage(id, call);
    assert r[..|r|] == r && [] + r == r;
  }

  /**
   The failing side of `IdleMeansAnswered`: on a clean connection a single call that throws leads to an idle system in
   which it has been run and its future waits for good.
   */
  lemma ThrowingCallStaysOpen<S(!new)>(
    env: Settings, fs: Backend<S>, s: State, c: Conn, client: ClientState<S>, call: Call)
    returns (moves: seq<Move>, end: System<S>)
    requires Honest(fs) && !call.GetCreds? && fs(client.backend, Normal(call)).1.Throw?
    requires Clean(s) && s.authenticated && !s.shutdown
    ensures Reached(env, fs, s, c, client, moves, end) && Idle(end)
    ensures end.served == |end.issued| == 1 && end.client.backend == fs(client.backend, Normal(call)).0
    ensures end.service.promises == s.promises + [Waiting] && end.issued[0].ticket == Some(|s.promises|)
    ensures !AllAnswered(end) && !NoCallThrows(fs, client.backend, end.issued)
  {
    hide AllAnswered, NoCallThrows, Honest, Dispatch, AfterCall, RequestMessage, Room, NextId, Normal, Connect, Execute,
      AfterMove, Possible, CanMove, AfterMoves, Called;
    var start := Connect(env, s, c, client);
    var r := RequestNow(start, call);
    StartsQuiet(env, s, c, client);
    CallKeeps(start, call);
    CalledState(start, call);
    var mid := AfterCall(start, call).(service := Called(start, call), toClient := [r]);
    ThrowingRead(env, fs, mid, NextId(start.service.id), call);
    end := AfterMove(env, fs, mid, ClientReads(|r|, true));
    NoMoves(env, fs, end);
    OneMoveMore(env, fs, mid, ClientReads(|r|, true), []);
    hide RequestNow;
    moves := Calling(env, fs, start, call, [ClientReads(|r|, true)] + []);
    OpenAndThrowing(fs, client.backend, |s.promises|, call, end);
  }

  lemma NoMoves<S(!new)>(env: Settings, fs: Backend<S>, sys: System<S>)
    requires Honest(fs)
    ensures CanMove(env, fs, sys, []) && AfterMoves(env, fs, sys, []) == sys
  {
  }

  lemma OpenAndThrowing<S(!new)>(fs: Backend<S>, b0: S, t: Ticket, call: Call, end: System<S>)
    requires Honest(fs) && fs(b0, Normal(call)).1.Throw?
    requires end.issued == [Issue(Some(t), call)] && t < |end.service.promises| && end.service.promises[t] == Waiting
    ensures !AllAnswered(end) && !NoCallThrows(fs, b0, end.issued)
  {
    hide Normal;
    assert end.issued[..0] == [];
    assert DirectReply(fs, b0, end.issued, 0).Throw?;
  }
}
