/**
 The credentials exchange from end to end: what the provider answers to the service's first request, how the service
 judges it, and what follows for the connection.
 */
module Credentials {
  import opened Bytes
  import opened Codec
  import opened Message
  import opened Calls
  import opened Remote
  import opened Service
  import opened Client
  import opened System
  import opened Epoch

  // ----- One exchange -----

  /**
   The service judges the very text that the backend gives for its credentials: accepted, it is authenticated; refused,
   the connection is to be closed and a writable callback is due.  Nothing else changes.
   */
  lemma CredentialsArrive<S(!new)>(env: Settings, s: State, fs: Backend<S>, b: S, id: u32)
    requires Honest(fs) && fs(b, GetCreds).1.Ok?
    ensures Dispatch(fs, b, MessageOf(id, 0x17, [])).0 == fs(b, GetCreds).0
    ensures Dispatch(fs, b, MessageOf(id, 0x17, [])).1.Ok?
    ensures AfterMessage(env, s, Dispatch(fs, b, MessageOf(id, 0x17, [])).1.value)
            == if env.accepts(Clip(fs(b, GetCreds).1.value.out.text)) then s.(authenticated := true)
               else s.(shutdown := true, armed := true)
  {
    hide MessageOf, EncodeFields, DecodeData, Dispatch, U32Of;
    RequestIsServed(fs, b, id, GetCreds);
    var text := fs(b, GetCreds).1.value.out.text;
    HeaderOf(id, 0x97, [Data(text)]);
    Spread1(Data(text), []);
    assert EncodeFields([Data(text)]) + [] == EncodeFields([Data(text)]);
    DataArrives(text, []);
  }

  /** A backend that throws instead gives no answer. */
  lemma NoCredentials<S(!new)>(fs: Backend<S>, b: S, id: u32)
    requires Honest(fs) && fs(b, GetCreds).1.Throw?
    ensures Dispatch(fs, b, MessageOf(id, 0x17, [])) == (fs(b, GetCreds).0, Throw)
  {
    hide MessageOf, Dispatch;
    RequestIsServed(fs, b, id, GetCreds);
  }

  // ----- Every run on a connection -----

  /** The credentials that the backend gives when it is asked first. */
  function Token<S>(fs: Backend<S>, b0: S): Option<Bytes> {
    match fs(b0, GetCreds).1
    case Throw => None
    case Ok(r) => Some(Clip(r.out.text))
  }

  /** The service has taken up the credentials, and its authenticator says `verdict`. */
  predicate Judged<S>(env: Settings, fs: Backend<S>, b0: S, sys: System<S>, verdict: bool) {
    sys.delivered > 0 && Token(fs, b0).Some? && env.accepts(Token(fs, b0).value) == verdict
  }

  /** The flags follow the verdict on the credentials, and until they are accepted they are all that is asked for. */
  ghost predicate Follows<S>(env: Settings, fs: Backend<S>, b0: S, sys: System<S>, handshakes: bool) {
    && sys.issued != [] && sys.issued[0] == Issue(None, GetCreds)
    && (forall i | 0 < i < |sys.issued| :: sys.issued[i].ticket.Some?)
    && (sys.service.shutdown <==> Judged(env, fs, b0, sys, false))
    && (!handshakes ==>
          && (sys.service.authenticated <==> Judged(env, fs, b0, sys, true))
          && (!sys.service.authenticated ==> |sys.issued| == 1))
  }

  lemma FirstAnswer<S(!new)>(fs: Backend<S>, b0: S, issued: seq<Issue>)
    requires Honest(fs) && issued != [] && issued[0] == Issue(None, GetCreds)
    ensures AnswerAt(fs, b0, issued, 0) == Dispatch(fs, b0, MessageOf(1, 0x17, [])).1
    ensures AnswerAt(fs, b0, issued, 0).Ok? <==> Token(fs, b0).Some?
    ensures Rank(fs, b0, issued, 0) == 0
  {
    hide Dispatch, MessageOf, ReplyFields;
    RequestIsServed(fs, b0, 1, GetCreds);
    assert issued[..0] == [];
  }

  /** The answer taken up next is the credentials' exactly when it is the first, if they are answered at all. */
  lemma FirstDelivery<S(!new)>(fs: Backend<S>, b0: S, issued: seq<Issue>, d: nat, delivered: nat)
    requires Honest(fs) && d < |issued| && issued[0] == Issue(None, GetCreds)
    requires AnswerAt(fs, b0, issued, d).Ok?
    requires Fate(fs, b0, issued, delivered, d) == Waiting && Fate(fs, b0, issued, delivered + 1, d) != Waiting
    ensures d == 0 <==> delivered == 0 && Token(fs, b0).Some?
  {
    hide AnswerAt, Rank, MessageOf, Dispatch, Token;
    FirstAnswer(fs, b0, issued);
    assert Rank(fs, b0, issued, d) == delivered;
    if d != 0 && Token(fs, b0).Some? { AtRank(fs, b0, issued, 0, d); }
  }

  /** No other message touches the flags. */
  lemma OtherMessage(env: Settings, s: State, m: Bytes)
    requires |m| >= 5 && m[4] != GETCREDS_RESPONSE
    ensures AfterMessage(env, s, m).authenticated == s.authenticated && AfterMessage(env, s, m).shutdown == s.shutdown
  {
    hide IdOf;
  }

  lemma DeliveryFollows<S(!new)>(env: Settings, fs: Backend<S>, b0: S, before: seq<Promise>, sys: System<S>, count: nat)
    requires Honest(fs) && Inv(fs, b0, before, sys) && CanTake(sys.toService, count, true)
    requires sys.issued != [] && sys.issued[0] == Issue(None, GetCreds)
    requires forall i | 0 < i < |sys.issued| :: sys.issued[i].ticket.Some?
    ensures var s, s' := sys.service, AfterServiceReads(env, sys, count, true).service;
            if sys.delivered == 0 && Token(fs, b0).Some?
            then if env.accepts(Token(fs, b0).value) then s'.authenticated && s'.shutdown == s.shutdown
                 else s'.shutdown && s'.authenticated == s.authenticated
            else s'.authenticated == s.authenticated && s'.shutdown == s.shutdown
  {
    var a := sys.service.buffer + sys.toService[0][..count];
    hide AnswerAt, AnswersOf, InFlight, Rank, MessageOf, Dispatch, Fate, NthId, Execute, IdOf, RequestsFrom,
      PendingExactly, TicketsInOrder, FuturesMatch, AfterMessage;
    NextAnswer(fs, b0, sys, count);
    var d := FateOnDelivery(fs, b0, sys.issued, sys.served, sys.delivered);
    AnswerFacts(fs, b0, sys.issued, d);
    FirstAnswer(fs, b0, sys.issued);
    FirstDelivery(fs, b0, sys.issued, d, sys.delivered);
    if d == 0 {
      CredentialsArrive(env, sys.service.(buffer := []), fs, b0, 1);
    } else {
      OtherMessage(env, sys.service.(buffer := []), a);
    }
  }

  lemma MoveFollows<S(!new)>(
    env: Settings, fs: Backend<S>, b0: S, before: seq<Promise>, sys: System<S>, handshakes: bool, move: Move)
    requires Honest(fs) && Inv(fs, b0, before, sys) && Possible(sys, move)
    requires Follows(env, fs, b0, sys, handshakes) && (move.Handshake? ==> handshakes)
    ensures Follows(env, fs, b0, AfterMove(env, fs, sys, move), handshakes)
  {
    hide RequestMessage, MessageOf, AfterMessage, AfterClientReceive, Token, RequestsInOrder, AnswersInOrder,
      PendingExactly, TicketsInOrder, FuturesMatch, WithId, NextId, NthId;
    match move
    case ServiceReads(count, final) =>
      if final { DeliveryFollows(env, fs, b0, before, sys, count); }
    case _ =>
  }

  lemma {:induction false} RunFollows<S(!new)>(
    env: Settings, fs: Backend<S>, b0: S, before: seq<Promise>, sys: System<S>, moves: seq<Move>, handshakes: bool)
    requires Honest(fs) && Inv(fs, b0, before, sys) && CanMove(env, fs, sys, moves)
    requires Follows(env, fs, b0, sys, handshakes)
    requires forall m | m in moves :: m.Handshake? ==> handshakes
    ensures Follows(env, fs, b0, AfterMoves(env, fs, sys, moves), handshakes)
    decreases |moves|
  {
    hide Inv, AfterMove, Possible, Follows;
    if moves != [] {
      assert moves[0] in moves;
      MoveKeepsInv(env, fs, b0, before, sys, moves[0]);
      MoveFollows(env, fs, b0, before, sys, handshakes, moves[0]);
      RunFollows(env, fs, b0, before, AfterMove(env, fs, sys, moves[0]), moves[1..], handshakes);
    }
  }

  /**
   With authentication configured, on a connection established unauthenticated and clean, whatever moves are made: the
   credentials request comes first.  The connection is to be closed exactly when the backend's answer to it has been
   taken up and is refused; without another client's handshake the service is authenticated exactly when that
   answer has been taken up and is accepted, and until then no other request is issued.  If the backend throws
   instead of giving credentials, neither ever happens.
   */
  lemma CredentialsDecide<S(!new)>(
    env: Settings, fs: Backend<S>, s: State, c: Conn, client: ClientState<S>, moves: seq<Move>, sys: System<S>)
    requires Honest(fs) && Reached(env, fs, s, c, client, moves, sys)
    requires env.authenticator != "" && !s.authenticated && !s.shutdown
    ensures var answer := fs(client.backend, GetCreds).1;
            var accepted := answer.Ok? && env.accepts(Clip(answer.value.out.text));
            && sys.issued != [] && sys.issued[0] == Issue(None, GetCreds)
            && (sys.service.shutdown <==> sys.delivered > 0 && answer.Ok? && !accepted)
            && ((forall m | m in moves :: !m.Handshake?) ==>
                  && (sys.service.authenticated <==> sys.delivered > 0 && accepted)
                  && (!sys.service.authenticated ==> sys.issued == [Issue(None, GetCreds)]))
  {
    hide CanMove, AfterMoves, Inv, MessageOf;
    var start := Connect(env, s, c, client);
    var handshakes := exists m | m in moves :: m.Handshake?;
    CleanStart(env, fs, s, c, client);
    assert Follows(env, fs, client.backend, start, handshakes);
    RunFollows(env, fs, client.backend, s.promises, start, moves, handshakes);
  }
}
