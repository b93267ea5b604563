/**
 Progress under every schedule: how much writing and reading there is left to do on a connection, counted in bytes and
 messages, and what holds when none of it is left.
 */
module Progress {
  import opened Bytes
  import opened Remote
  import opened Service
  import opened Client
  import opened System
  import opened Epoch

  /** How many reads messages can take, each of at least one byte but for an empty one at the end. */
  function Reads(ms: seq<Bytes>): nat {
    if ms == [] then 0 else |ms[0]| + 1 + Reads(ms[1..])
  }

  lemma {:induction false} ReadsAppend(a: seq<Bytes>, b: seq<Bytes>)
    ensures Reads(a + b) == Reads(a) + Reads(b)
  {
    if a == [] {
      assert a + b == b;
    } else {
      assert (a + b)[1..] == a[1..] + b;
      ReadsAppend(a[1..], b);
    }
  }

  /** The requests the provider will still take up. */
  function ToServe<S>(sys: System<S>): seq<Bytes> {
    InFlight(sys.client.buffer, sys.toClient) + sys.service.requests
  }

  /** The answers it will still give. */
  function ToAnswer<S(!new)>(fs: Backend<S>, sys: System<S>): seq<Bytes>
    requires Honest(fs)
  {
    Serve(fs, sys.client.backend, ToServe(sys)).1
  }

  /** The writes and reads that are left to do, if no more calls are made. */
  function Potential<S(!new)>(fs: Backend<S>, sys: System<S>): nat
    requires Honest(fs)
  {
    var answers := ToAnswer(fs, sys);
    (|sys.service.requests| + Reads(sys.service.requests)) + Reads(sys.toClient)
    + (|answers| + Reads(answers)) + (|sys.client.answers| + Reads(sys.client.answers)) + Reads(sys.toService)
  }

  /** The move writes a message, or it reads some bytes or ends a message. */
  predicate Productive<S>(sys: System<S>, move: Move) {
    match move
    case ServiceWrites => !sys.service.shutdown && sys.service.requests != []
    case ClientWrites => sys.client.answers != []
    case ServiceReads(count, final) => count > 0 || final
    case ClientReads(count, final) => count > 0 || final
    case _ => false
  }

  predicate Flowing<S>(sys: System<S>) {
    sys.service.connection.Some? && (sys.toClient == [] ==> sys.client.buffer == [])
  }

  lemma TakenReads(channel: seq<Bytes>, count: nat, final: bool)
    requires CanTake(channel, count, final)
    ensures Reads(Untaken(channel, count, final)) + count + (if final then 1 else 0) == Reads(channel)
  {
    if !final { assert Untaken(channel, count, final)[1..] == channel[1..]; }
  }

  /** Steps of the service that are neither calls nor writes nor complete messages leave its queue alone. */
  lemma QuietMove<S(!new)>(env: Settings, fs: Backend<S>, sys: System<S>, move: Move)
    requires Honest(fs) && Possible(sys, move) && Flowing(sys)
    requires move.Handshake? || move.SecondConnection? || move.OtherClosed? || move.ServicePoll?
    ensures var sys' := AfterMove(env, fs, sys, move);
            sys' == sys.(service := sys'.service) && sys'.service.requests == sys.service.requests && Flowing(sys')
  {
  }

  lemma QuietMoveWorks<S(!new)>(env: Settings, fs: Backend<S>, sys: System<S>, move: Move)
    requires Honest(fs) && Possible(sys, move) && Flowing(sys)
    requires move.Handshake? || move.SecondConnection? || move.OtherClosed? || move.ServicePoll?
    ensures var sys' := AfterMove(env, fs, sys, move); Flowing(sys') && Potential(fs, sys') == Potential(fs, sys)
  {
    QuietMove(env, fs, sys, move);
    hide Serve, InFlight, Reads, AfterMove;
    assert ToServe(AfterMove(env, fs, sys, move)) == ToServe(sys);
  }

  lemma ServiceWriteWorks<S(!new)>(env: Settings, fs: Backend<S>, sys: System<S>)
    requires Honest(fs) && Flowing(sys) && Productive(sys, ServiceWrites)
    ensures Potential(fs, AfterServiceWrites(sys)) < Potential(fs, sys) && Flowing(AfterServiceWrites(sys))
  {
    var r := sys.service.requests;
    hide Serve, InFlight;
    Queue(sys.client.buffer, sys.toClient, r);
    ReadsAppend(sys.toClient, [r[0]]);
    assert Reads([r[0]]) == |r[0]| + 1;
  }

  lemma ClientWriteWorks<S(!new)>(fs: Backend<S>, sys: System<S>)
    requires Honest(fs) && Flowing(sys) && Productive(sys, ClientWrites)
    ensures Potential(fs, AfterClientWrites(sys)) < Potential(fs, sys) && Flowing(AfterClientWrites(sys))
  {
    var a := sys.client.answers;
    hide Serve, InFlight;
    assert ToServe(AfterClientWrites(sys)) == ToServe(sys);
    ReadsAppend(sys.toService, [a[0]]);
    assert Reads([a[0]]) == |a[0]| + 1;
  }

  lemma ServiceReadWorks<S(!new)>(env: Settings, fs: Backend<S>, sys: System<S>, count: nat, final: bool)
    requires Honest(fs) && Flowing(sys) && CanTake(sys.toService, count, final)
    ensures var sys' := AfterServiceReads(env, sys, count, final);
            Potential(fs, sys') + count + (if final then 1 else 0) == Potential(fs, sys) && Flowing(sys')
  {
    ReceiveKeepsQueue(env, sys.service, sys.toService[0][..count], final);
    TakenReads(sys.toService, count, final);
    hide Serve, InFlight, Reads, AfterReceive, Untaken;
    assert ToServe(AfterServiceReads(env, sys, count, final)) == ToServe(sys);
  }

  lemma ReceiveKeepsQueue(env: Settings, s: State, fragment: Bytes, final: bool)
    ensures var s' := AfterReceive(env, s, fragment, final); s'.requests == s.requests && s'.connection == s.connection
  {
    hide IdOf;
  }

  lemma ClientPartWorks<S(!new)>(fs: Backend<S>, sys: System<S>, count: nat)
    requires Honest(fs) && Flowing(sys) && CanTake(sys.toClient, count, false)
    ensures var sys' := AfterClientReads(fs, sys, count, false);
            Potential(fs, sys') + count == Potential(fs, sys) && Flowing(sys')
  {
    TakenReads(sys.toClient, count, false);
    TakeFirst(sys.client.buffer, sys.toClient, count, sys.service.requests);
    hide Serve, InFlight, Reads;
  }

  /** Taking up a request turns it into the answer that was due for it. */
  lemma ServeWorks<S(!new)>(fs: Backend<S>, sys: System<S>, count: nat)
    requires Honest(fs) && Flowing(sys) && CanTake(sys.toClient, count, true)
    ensures var sys' := AfterClientReads(fs, sys, count, true);
            Potential(fs, sys') + count + 1 == Potential(fs, sys) && Flowing(sys')
  {
    var m := sys.client.buffer + sys.toClient[0][..count];
    var sys' := AfterClientReads(fs, sys, count, true);
    ReadsWhole(fs, sys, count);
    OneRequest(fs, sys.client, m);
    TakenReads(sys.toClient, count, true);
    TakeWhole(sys.client.buffer, sys.toClient, count, sys.service.requests);
    hide AfterClientReads, AfterRequest, InFlight, Untaken, Dispatch, AnswerTo;
    assert ToServe(sys)[0] == m && ToServe(sys)[1..] == ToServe(sys');
    assert ToAnswer(fs, sys) == AnswerTo(fs, sys.client.backend, m) + ToAnswer(fs, sys');
    ReadsAppend(AnswerTo(fs, sys.client.backend, m), ToAnswer(fs, sys'));
    ReadsAppend(sys.client.answers, AnswerTo(fs, sys.client.backend, m));
    hide Serve, Reads, ToServe;
  }

  /** Every productive move leaves less to do, and no other move but a call changes how much that is. */
  lemma MoveWorks<S(!new)>(env: Settings, fs: Backend<S>, sys: System<S>, move: Move)
    requires Honest(fs) && Flowing(sys) && Possible(sys, move) && !move.MakeCall?
    ensures var sys' := AfterMove(env, fs, sys, move);
            && Flowing(sys')
            && (if Productive(sys, move) then Potential(fs, sys') < Potential(fs, sys)
                else Potential(fs, sys') == Potential(fs, sys))
  {
    match move
    case ServiceWrites =>
      if Productive(sys, move) {
        ServiceWriteWorks(env, fs, sys);
      } else {
        hide Serve, InFlight, Reads;
        assert ToServe(AfterServiceWrites(sys)) == ToServe(sys);
      }
    case ClientWrites =>
      if Productive(sys, move) {
        ClientWriteWorks(fs, sys);
      } else {
        hide Serve, InFlight, Reads;
        assert ToServe(AfterClientWrites(sys)) == ToServe(sys);
      }
    case ServiceReads(count, final) => ServiceReadWorks(env, fs, sys, count, final);
    case ClientReads(count, final) =>
      if final { ServeWorks(fs, sys, count); } else { ClientPartWorks(fs, sys, count); }
    case Handshake(_) => QuietMoveWorks(env, fs, sys, move);
    case SecondConnection(_) => QuietMoveWorks(env, fs, sys, move);
    case OtherClosed(_) => QuietMoveWorks(env, fs, sys, move);
    case ServicePoll => QuietMoveWorks(env, fs, sys, move);
    case MakeCall(_) => assert false;
  }

  predicate NoCalls(moves: seq<Move>) {
    forall move | move in moves :: !move.MakeCall?
  }

  function Productives<S(!new)>(env: Settings, fs: Backend<S>, sys: System<S>, moves: seq<Move>): nat
    requires Honest(fs) && CanMove(env, fs, sys, moves)
    decreases |moves|
  {
    if moves == [] then 0
    else
      (if Productive(sys, moves[0]) then 1 else 0) + Productives(env, fs, AfterMove(env, fs, sys, moves[0]), moves[1..])
  }

  lemma {:induction false} RunWorks<S(!new)>(env: Settings, fs: Backend<S>, sys: System<S>, moves: seq<Move>)
    requires Honest(fs) && Flowing(sys) && CanMove(env, fs, sys, moves) && NoCalls(moves)
    ensures Productives(env, fs, sys, moves) + Potential(fs, AfterMoves(env, fs, sys, moves)) <= Potential(fs, sys)
    decreases |moves|
  {
    if moves != [] {
      hide AfterMove, Possible, Productive, Potential, Flowing;
      assert moves[0] in moves && forall move | move in moves[1..] :: move in moves;
      MoveWorks(env, fs, sys, moves[0]);
      RunWorks(env, fs, AfterMove(env, fs, sys, moves[0]), moves[1..]);
    }
  }

  /** Even after the service loop's poll no move would write or read anything. */
  ghost predicate NothingLeft<S(!new)>(env: Settings, fs: Backend<S>, sys: System<S>)
    requires Honest(fs)
  {
    var polled := AfterMove(env, fs, sys, ServicePoll);
    forall move | Possible(polled, move) :: !Productive(polled, move)
  }

  lemma NothingLeftIff<S(!new)>(env: Settings, fs: Backend<S>, sys: System<S>)
    requires Honest(fs) && Driven(sys) && !sys.service.shutdown
    ensures NothingLeft(env, fs, sys) <==> Idle(sys)
  {
    var polled := AfterMove(env, fs, sys, ServicePoll);
    assert polled == sys.(service := polled.service) && polled.service.requests == sys.service.requests;
    assert !polled.service.shutdown && (sys.service.requests != [] ==> polled.service.armed);
    hide AfterMove;
    if !Idle(sys) {
      var move := if sys.toService != [] then ServiceReads(|sys.toService[0]|, true)
                  else if sys.client.answers != [] then ClientWrites
                  else if sys.toClient != [] then ClientReads(|sys.toClient[0]|, true)
                  else ServiceWrites;
      assert Possible(polled, move) && Productive(polled, move);
    }
  }

  /**
   Under every schedule: a run without further calls from a reached state makes at most as many productive moves as its
   potential, and when none is left every issued request has been run and its future holds its own answer, unless its
   call threw or rejected credentials shut the connection down.
   */
  lemma EveryScheduleFinishes<S(!new)>(
    env: Settings, fs: Backend<S>, s: State, c: Conn, client: ClientState<S>, moves: seq<Move>, sys: System<S>,
    more: seq<Move>)
    requires Honest(fs) && Reached(env, fs, s, c, client, moves, sys)
    requires CanMove(env, fs, sys, more) && NoCalls(more)
    ensures Productives(env, fs, sys, more) <= Potential(fs, sys)
    ensures var end := AfterMoves(env, fs, sys, more);
            NothingLeft(env, fs, end) ==> end.service.shutdown || AllSettled(fs, client.backend, end)
  {
    var end := AfterMoves(env, fs, sys, more);
    ReachedInv(env, fs, s, c, client, moves, sys);
    assert Flowing(sys);
    RunWorks(env, fs, sys, more);
    MovesAppend(env, fs, Connect(env, s, c, client), moves, more);
    hide AfterMoves, CanMove, AllSettled, NothingLeft, Idle, Connect, Inv, Potential, Productives;
    if NothingLeft(env, fs, end) && !end.service.shutdown {
      ReachedInv(env, fs, s, c, client, moves + more, end);
      InvDrives(fs, client.backend, s.promises, end);
      NothingLeftIff(env, fs, end);
      IdleMeansAnswered(env, fs, s, c, client, moves + more, end);
    }
  }
}
