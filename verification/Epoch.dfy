/**
 What holds in every run of service, provider and channels on one connection, and what goes
 wrong when a connection does not start clean.
 */
module Epoch {
  import opened Bytes
  import opened Codec
  import opened Message
  import opened Calls
  import opened Remote
  import opened Service
  import opened Client
  import opened System

  // ----- Every move keeps the invariant -----

  /** Moves that touch neither queues, channels, promises nor identifiers. */
  lemma SameCore<S(!new)>(fs: Backend<S>, b0: S, before: seq<Promise>, sys: System<S>, s': State)
    requires Honest(fs) && Inv(fs, b0, before, sys)
    requires s' == sys.service.(authenticated := s'.authenticated, shutdown := s'.shutdown, armed := s'.armed)
    ensures Inv(fs, b0, before, sys.(service := s'))
  {
    hide RequestsFrom, AnswersOf, InFlight, Execute, Fate, NthId;
    SameOpen(fs, b0, sys, sys.(service := s'));
  }

  /** What is pending depends on the issued requests and the answers taken up alone. */
  lemma SameOpen<S(!new)>(fs: Backend<S>, b0: S, sys: System<S>, sys': System<S>)
    requires Honest(fs) && PendingExactly(fs, b0, sys)
    requires sys'.issued == sys.issued && sys'.delivered == sys.delivered
    requires sys'.service.pending == sys.service.pending
    ensures PendingExactly(fs, b0, sys')
  {
    hide Fate, NthId, IdAt;
    forall i | 0 <= i < |sys.issued| ensures Unanswered(fs, b0, sys', i) == Unanswered(fs, b0, sys, i) {}
    forall k | k in sys'.service.pending
      ensures exists i | 0 <= i < |sys'.issued| :: Unanswered(fs, b0, sys', i) && IdAt(i) == k
    {
      var i :| 0 <= i < |sys.issued| && Unanswered(fs, b0, sys, i) && IdAt(i) == k;
      assert Unanswered(fs, b0, sys', i);
    }
  }

  lemma CallKeepsInv<S(!new)>(fs: Backend<S>, b0: S, before: seq<Promise>, sys: System<S>, call: Call)
    requires Honest(fs) && Inv(fs, b0, before, sys) && Possible(sys, MakeCall(call))
    ensures Inv(fs, b0, before, AfterCall(sys, call))
  {
    if sys.service.authenticated {
      IssueKeepsInv(fs, b0, before, sys, call);
    } else {
      RefusalKeepsInv(fs, b0, before, sys, call);
    }
  }

  lemma RefusalKeepsInv<S(!new)>(fs: Backend<S>, b0: S, before: seq<Promise>, sys: System<S>, call: Call)
    requires Honest(fs) && Inv(fs, b0, before, sys) && !sys.service.authenticated
    ensures Inv(fs, b0, before, AfterCall(sys, call))
  {
    hide RequestsFrom, AnswersOf, InFlight, Execute, Fate, NthId, RequestMessage, IdAt;
    var sys' := AfterCall(sys, call);
    assert sys'.service == sys.service.(promises := sys.service.promises + [Rejected]);
    SameOpen(fs, b0, sys, sys');
  }

  lemma PendingHolds<S(!new)>(fs: Backend<S>, b0: S, sys: System<S>, i: nat)
    requires Honest(fs) && PendingExactly(fs, b0, sys) && i < |sys.issued| && Unanswered(fs, b0, sys, i)
    ensures IdAt(i) in sys.service.pending && sys.issued[i].ticket == Some(sys.service.pending[IdAt(i)])
    ensures |sys.issued| - i < TWO32
  {
    hide Fate, NthId, IdAt;
  }

  lemma PendingBelongs<S(!new)>(fs: Backend<S>, b0: S, sys: System<S>, k: u32) returns (i: nat)
    requires Honest(fs) && PendingExactly(fs, b0, sys) && k in sys.service.pending
    ensures i < |sys.issued| && Unanswered(fs, b0, sys, i) && IdAt(i) == k
    ensures sys.issued[i].ticket == Some(sys.service.pending[k]) && |sys.issued| - i < TWO32
  {
    hide Fate, NthId, IdAt;
    i :| 0 <= i < |sys.issued| && Unanswered(fs, b0, sys, i) && IdAt(i) == k;
  }

  lemma NextIsAt<S>(sys: System<S>)
    requires Counted(sys)
    ensures IdAt(|sys.issued|) == NextId(sys.service.id)
  {
  }

  lemma RoomIffFree<S(!new)>(fs: Backend<S>, b0: S, sys: System<S>)
    requires Honest(fs) && PendingExactly(fs, b0, sys)
    ensures Room(sys) <==> NextId(sys.service.id) !in sys.service.pending
  {
    hide PendingExactly, Unanswered, IdAt, NextId;
    if NextId(sys.service.id) in sys.service.pending {
      var i := PendingBelongs(fs, b0, sys, NextId(sys.service.id));
    }
  }

  /**
   The bound on calls is exact: there is no room for the next identifier precisely when the request made 2^32 - 1
   requests ago is still unanswered.  A connection with fewer requests always has room.
   */
  lemma NoRoomIff<S(!new)>(fs: Backend<S>, b0: S, sys: System<S>)
    requires Honest(fs) && Counted(sys) && PendingExactly(fs, b0, sys)
    ensures var n := |sys.issued|;
            && IdAt(n) == NextId(sys.service.id)
            && (Room(sys) <==> NextId(sys.service.id) !in sys.service.pending)
            && (!Room(sys) <==> n >= TWO32 - 1 && Unanswered(fs, b0, sys, n - (TWO32 - 1)))
  {
    hide PendingExactly, Unanswered, IdAt, NextId, NthId, Room, Counted;
    var n := |sys.issued|;
    NextIsAt(sys);
    RoomIffFree(fs, b0, sys);
    if IdAt(n) in sys.service.pending {
      var i := PendingBelongs(fs, b0, sys, IdAt(n));
      SameId(i, n);
    }
    if n >= TWO32 - 1 && Unanswered(fs, b0, sys, n - (TWO32 - 1)) {
      PendingHolds(fs, b0, sys, n - (TWO32 - 1));
      SameId(n - (TWO32 - 1), n);
    }
  }

  lemma IssueKeepsInv<S(!new)>(fs: Backend<S>, b0: S, before: seq<Promise>, sys: System<S>, call: Call)
    requires Honest(fs) && Inv(fs, b0, before, sys) && Possible(sys, MakeCall(call)) && sys.service.authenticated
    ensures Inv(fs, b0, before, AfterCall(sys, call))
  {
    hide Unanswered, Fate, AnswersOf, NthId, IdAt, RequestMessage, Execute, AfterCall, Counted, RequestsInOrder,
      AnswersInOrder, PendingExactly, TicketsInOrder, FuturesMatch, Room, NextId, Issued, FatesStay;
    var id := IdAt(|sys.issued|);
    var more := Issue(Some(|sys.service.promises|), call);
    var sys' := AfterCall(sys, call);
    NoRoomIff(fs, b0, sys);
    IssuedByCall(sys, call);
    IssuedFates(fs, b0, sys, sys', more, id);
    IssuedCounted(sys, sys', more, id);
    IssuedQueues(fs, b0, sys, sys', more, id);
    IssuedPending(fs, b0, sys, sys', more, id);
    IssuedTickets(fs, b0, before, sys, sys', more);
  }

  /** The change an issued request makes. */
  ghost predicate Issued<S>(sys: System<S>, sys': System<S>, more: Issue, id: u32) {
    var s := sys.service;
    && more.ticket == Some(|s.promises|) && !more.call.GetCreds?
    && id == IdAt(|sys.issued|) && id !in s.pending
    && sys' == sys.(issued := sys.issued + [more],
                    service := s.(id := id, requests := s.requests + [RequestMessage(id, more.call)],
                                  promises := s.promises + [Waiting], pending := s.pending[id := |s.promises|]))
  }

  lemma IssuedByCall<S>(sys: System<S>, call: Call)
    requires sys.service.authenticated && !call.GetCreds?
    requires IdAt(|sys.issued|) == NextId(sys.service.id) && IdAt(|sys.issued|) !in sys.service.pending
    ensures Issued(sys, AfterCall(sys, call), Issue(Some(|sys.service.promises|), call), IdAt(|sys.issued|))
  {
    var id := NextId(sys.service.id);
    assert RequestMessage(id, call) == WithId(RequestMessage(0, call), id) by {
      SetIdLast(0, id, TypeCode(call), RequestFields(call));
    }
    hide RequestMessage, WithId, NthId, IdAt;
    RequestHasHeader(0, call);
  }

  lemma IssuedCounted<S>(sys: System<S>, sys': System<S>, more: Issue, id: u32)
    requires Counted(sys) && Issued(sys, sys', more, id)
    ensures Counted(sys')
  {
    hide RequestMessage, NthId;
  }

  lemma IssuedQueues<S(!new)>(fs: Backend<S>, b0: S, sys: System<S>, sys': System<S>, more: Issue, id: u32)
    requires Honest(fs) && Counted(sys) && Issued(sys, sys', more, id)
    requires RequestsInOrder(sys) && AnswersInOrder(fs, b0, sys)
    ensures RequestsInOrder(sys') && AnswersInOrder(fs, b0, sys')
  {
    hide RequestMessage, NthId, Execute, InFlight, AnswersOf;
    var flight := InFlight(sys.client.buffer, sys.toClient);
    var m := RequestAt(sys'.issued, |sys.issued|);
    RequestsSnoc(sys.issued, more, sys.served);
    assert m == RequestMessage(id, more.call);
    assert flight + sys.service.requests + [m] == flight + (sys.service.requests + [m]);
    assert sys'.issued[..sys.served] == sys.issued[..sys.served];
    hide RequestsFrom;
  }

  /** The fates of the earlier requests stay, and the new one waits. */
  ghost predicate FatesStay<S(!new)>(fs: Backend<S>, b0: S, sys: System<S>, sys': System<S>)
    requires Honest(fs)
  {
    && |sys'.issued| == |sys.issued| + 1
    && (forall i | 0 <= i < |sys.issued| ::
          Fate(fs, b0, sys'.issued, sys'.delivered, i) == Fate(fs, b0, sys.issued, sys.delivered, i))
    && Fate(fs, b0, sys'.issued, sys'.delivered, |sys.issued|) == Waiting
  }

  lemma IssuedFates<S(!new)>(fs: Backend<S>, b0: S, sys: System<S>, sys': System<S>, more: Issue, id: u32)
    requires Honest(fs) && Counted(sys) && AnswersInOrder(fs, b0, sys) && Issued(sys, sys', more, id)
    ensures FatesStay(fs, b0, sys, sys')
  {
    hide Fate, AnswersOf, NthId, RequestMessage, Execute, InFlight, IdAt;
    FateOnIssue(fs, b0, sys.issued, more, sys.served, sys.delivered);
  }

  lemma IssuedPending<S(!new)>(fs: Backend<S>, b0: S, sys: System<S>, sys': System<S>, more: Issue, id: u32)
    requires Honest(fs) && Counted(sys) && PendingExactly(fs, b0, sys) && Issued(sys, sys', more, id)
    requires FatesStay(fs, b0, sys, sys') && Room(sys)
    ensures PendingExactly(fs, b0, sys')
  {
    hide RequestMessage, NthId, IdAt, Fate, Room, NextId;
    var n := |sys.issued|;
    NoRoomIff(fs, b0, sys);
    assert Unanswered(fs, b0, sys', n) && sys'.issued[n] == more;
    forall i | 0 <= i < n ensures Unanswered(fs, b0, sys', i) == Unanswered(fs, b0, sys, i) {
      assert sys'.issued[i] == sys.issued[i];
    }
    forall i | 0 <= i < n && Unanswered(fs, b0, sys', i)
      ensures IdAt(i) in sys'.service.pending && sys'.service.pending[IdAt(i)] == sys'.issued[i].ticket.value
      ensures n + 1 - i < TWO32
    {
      assert Unanswered(fs, b0, sys, i) && IdAt(i) in sys.service.pending;
    }
    forall k | k in sys'.service.pending
      ensures exists i | 0 <= i < |sys'.issued| :: Unanswered(fs, b0, sys', i) && IdAt(i) == k
    {
      if k == id {
        assert IdAt(n) == k;
      } else {
        var i :| 0 <= i < n && Unanswered(fs, b0, sys, i) && IdAt(i) == k;
        assert Unanswered(fs, b0, sys', i);
      }
    }
  }

  lemma IssuedTickets<S(!new)>(
    fs: Backend<S>, b0: S, before: seq<Promise>, sys: System<S>, sys': System<S>, more: Issue)
    requires Honest(fs) && Counted(sys) && TicketsInOrder(before, sys) && FuturesMatch(fs, b0, sys)
    requires Issued(sys, sys', more, IdAt(|sys.issued|)) && FatesStay(fs, b0, sys, sys')
    ensures TicketsInOrder(before, sys') && FuturesMatch(fs, b0, sys')
  {
    hide RequestMessage, NthId, IdAt, Fate;
    var n := |sys.issued|;
    var promises, promises' := sys.service.promises, sys'.service.promises;
    forall t | |before| <= t < |promises'|
      ensures promises'[t] == Rejected || exists i | 0 <= i < |sys'.issued| :: sys'.issued[i].ticket == Some(t)
    {
      if t == |promises| {
        assert sys'.issued[n].ticket == Some(t);
      } else if promises[t] != Rejected {
        var i :| 0 <= i < n && sys.issued[i].ticket == Some(t);
        assert sys'.issued[i] == sys.issued[i];
      }
    }
  }

  lemma ServiceWriteKeepsInv<S(!new)>(fs: Backend<S>, b0: S, before: seq<Promise>, sys: System<S>)
    requires Honest(fs) && Inv(fs, b0, before, sys)
    ensures Inv(fs, b0, before, AfterServiceWrites(sys))
  {
    hide RequestsFrom, AnswersOf, InFlight, Execute, Fate, NthId, RequestMessage, IdAt;
    var s := sys.service;
    SameOpen(fs, b0, sys, AfterServiceWrites(sys));
    if !s.shutdown && s.requests != [] {
      Queue(sys.client.buffer, sys.toClient, s.requests);
    }
  }

  lemma ClientWriteKeepsInv<S(!new)>(fs: Backend<S>, b0: S, before: seq<Promise>, sys: System<S>)
    requires Honest(fs) && Inv(fs, b0, before, sys)
    ensures Inv(fs, b0, before, AfterClientWrites(sys))
  {
    hide RequestsFrom, AnswersOf, InFlight, Execute, Fate, NthId, RequestMessage, IdAt;
    SameOpen(fs, b0, sys, AfterClientWrites(sys));
    if sys.client.answers != [] {
      Queue(sys.service.buffer, sys.toService, sys.client.answers);
    }
  }

  lemma ClientPartKeepsInv<S(!new)>(fs: Backend<S>, b0: S, before: seq<Promise>, sys: System<S>, count: nat)
    requires Honest(fs) && Inv(fs, b0, before, sys) && CanTake(sys.toClient, count, false)
    ensures Inv(fs, b0, before, AfterClientReads(fs, sys, count, false))
  {
    hide RequestsFrom, AnswersOf, InFlight, Execute, Fate, NthId, RequestMessage, IdAt;
    SameOpen(fs, b0, sys, AfterClientReads(fs, sys, count, false));
    TakeFirst(sys.client.buffer, sys.toClient, count, sys.service.requests);
  }

  lemma ServicePartKeepsInv<S(!new)>(
    env: Settings, fs: Backend<S>, b0: S, before: seq<Promise>, sys: System<S>, count: nat)
    requires Honest(fs) && Inv(fs, b0, before, sys) && CanTake(sys.toService, count, false)
    ensures Inv(fs, b0, before, AfterServiceReads(env, sys, count, false))
  {
    hide RequestsFrom, AnswersOf, InFlight, Execute, Fate, NthId, RequestMessage, IdAt;
    SameOpen(fs, b0, sys, AfterServiceReads(env, sys, count, false));
    TakeFirst(sys.service.buffer, sys.toService, count, sys.client.answers);
  }

  /**
   The provider takes up the next request: it is the one issued next.  Its answer, if it does not throw, is the direct
   one, and the backend is where direct execution leads in either case.
   */
  lemma ServeKeepsInv<S(!new)>(fs: Backend<S>, b0: S, before: seq<Promise>, sys: System<S>, count: nat)
    requires Honest(fs) && Inv(fs, b0, before, sys) && CanTake(sys.toClient, count, true)
    ensures Inv(fs, b0, before, AfterClientReads(fs, sys, count, true))
  {
    var sys' := AfterClientReads(fs, sys, count, true);
    var m := sys.client.buffer + sys.toClient[0][..count];
    NextRequest(sys, count);
    ServeNext(fs, b0, sys, m);
    ReadsWhole(fs, sys, count);
    hide Execute, AnswerAt, NthId, RequestMessage, IdAt, AfterClientReads, AfterRequest, Fate, AnswersOf, RequestsFrom,
      InFlight, PendingExactly, Untaken;
    ServedAnswers(fs, b0, sys, sys');
    SameOpen(fs, b0, sys, sys');
    ServedRest(fs, b0, before, sys, sys');
  }

  lemma ReadsWhole<S(!new)>(fs: Backend<S>, sys: System<S>, count: nat)
    requires Honest(fs) && CanTake(sys.toClient, count, true)
    ensures AfterClientReads(fs, sys, count, true)
            == sys.(client := AfterRequest(fs, sys.client, sys.client.buffer + sys.toClient[0][..count]).(buffer := []),
                    toClient := Untaken(sys.toClient, count, true), served := sys.served + 1)
  {
    hide Dispatch;
  }

  /** Serving touches neither futures nor pending identifiers. */
  lemma ServedRest<S(!new)>(fs: Backend<S>, b0: S, before: seq<Promise>, sys: System<S>, sys': System<S>)
    requires Honest(fs) && Counted(sys) && sys.served < |sys.issued| && TicketsInOrder(before, sys)
    requires FuturesMatch(fs, b0, sys) && Serves(fs, b0, sys, sys'.client) && sys'.client.buffer == []
    requires sys'.service == sys.service && sys'.issued == sys.issued && sys'.delivered == sys.delivered
    requires sys'.served == sys.served + 1 && sys'.toService == sys.toService
    ensures Counted(sys') && TicketsInOrder(before, sys') && FuturesMatch(fs, b0, sys')
  {
    hide Execute, AnswerAt, NthId, Fate;
  }

  lemma NextRequest<S>(sys: System<S>, count: nat)
    requires Counted(sys) && RequestsInOrder(sys) && CanTake(sys.toClient, count, true)
    ensures sys.served < |sys.issued|
    ensures sys.client.buffer + sys.toClient[0][..count] == RequestAt(sys.issued, sys.served)
    ensures RequestsFrom(sys.issued, sys.served + 1)
            == InFlight([], Untaken(sys.toClient, count, true)) + sys.service.requests
  {
    hide RequestAt, RequestsFrom, Untaken, NthId;
    TakeWhole(sys.client.buffer, sys.toClient, count, sys.service.requests);
    OldestRequest(sys.issued, sys.served);
  }

  lemma OldestRequest(issued: seq<Issue>, k: nat)
    requires k <= |issued|
    ensures |RequestsFrom(issued, k)| == |issued| - k
    ensures k < |issued| ==>
              && RequestsFrom(issued, k)[0] == RequestAt(issued, k)
              && RequestsFrom(issued, k)[1..] == RequestsFrom(issued, k + 1)
  {
    hide RequestAt;
  }

  /** The client after it has taken up request `served`. */
  ghost predicate Serves<S(!new)>(fs: Backend<S>, b0: S, sys: System<S>, c: ClientState<S>)
    requires Honest(fs) && sys.served < |sys.issued|
  {
    && c.backend == Execute(fs, b0, sys.issued[..sys.served + 1])
    && match AnswerAt(fs, b0, sys.issued, sys.served)
       case Ok(a) => c.answers == sys.client.answers + [a] && c.armed
       case Throw => c.answers == sys.client.answers && c.armed == sys.client.armed
  }

  lemma ServeNext<S(!new)>(fs: Backend<S>, b0: S, sys: System<S>, m: Bytes)
    requires Honest(fs) && sys.served < |sys.issued| && m == RequestAt(sys.issued, sys.served)
    requires sys.client.backend == Execute(fs, b0, sys.issued[..sys.served])
    ensures Serves(fs, b0, sys, AfterRequest(fs, sys.client, m))
  {
    hide Dispatch, Answer, Normal, NthId, RequestMessage;
    var k := sys.served;
    var call := sys.issued[k].call;
    RequestIsServed(fs, sys.client.backend, IdAt(k), call);
    assert sys.issued[..k + 1][..k] == sys.issued[..k];
  }

  /** The answer to the served request joins the answers under way. */
  lemma ServedAnswers<S(!new)>(fs: Backend<S>, b0: S, sys: System<S>, sys': System<S>)
    requires Honest(fs) && Counted(sys) && AnswersInOrder(fs, b0, sys) && sys.served < |sys.issued|
    requires Serves(fs, b0, sys, sys'.client)
    requires sys'.service == sys.service && sys'.issued == sys.issued && sys'.delivered == sys.delivered
    requires sys'.served == sys.served + 1 && sys'.toService == sys.toService
    ensures AnswersInOrder(fs, b0, sys')
  {
    hide Execute, AnswerAt, AnswersOf, InFlight;
    AnswersSnoc(fs, b0, sys.issued, sys.served);
    var all := AnswersOf(fs, b0, sys.issued[..sys.served]);
    var flight := InFlight(sys.service.buffer, sys.toService);
    if AnswerAt(fs, b0, sys.issued, sys.served).Ok? {
      var a := AnswerAt(fs, b0, sys.issued, sys.served).value;
      assert (all + [a])[sys.delivered..] == all[sys.delivered..] + [a];
      assert flight + sys.client.answers + [a] == flight + (sys.client.answers + [a]);
    } else {
      assert all + [] == all;
    }
  }

  /** The service takes up the next answer: it completes the future of that answer's own request. */
  lemma DeliverKeepsInv<S(!new)>(
    env: Settings, fs: Backend<S>, b0: S, before: seq<Promise>, sys: System<S>, count: nat)
    requires Honest(fs) && Inv(fs, b0, before, sys) && CanTake(sys.toService, count, true)
    ensures Inv(fs, b0, before, AfterServiceReads(env, sys, count, true))
  {
    var sys' := AfterServiceReads(env, sys, count, true);
    NextAnswer(fs, b0, sys, count);
    hide AnswersOf, RequestsFrom, InFlight, Execute, AnswerAt, NthId, IdAt, AfterServiceReads, Untaken, Rank, Fate;
    var d := FateOnDelivery(fs, b0, sys.issued, sys.served, sys.delivered);
    TakenByReading(env, fs, b0, before, sys, count, d);
    hide Taken;
    DeliveredQueues(fs, b0, sys, sys', d);
    DeliveredPending(fs, b0, sys, sys', d);
    DeliveredFutures(fs, b0, before, sys, sys', d);
  }

  lemma NextAnswer<S(!new)>(fs: Backend<S>, b0: S, sys: System<S>, count: nat)
    requires Honest(fs) && Counted(sys) && AnswersInOrder(fs, b0, sys) && CanTake(sys.toService, count, true)
    ensures sys.delivered < Rank(fs, b0, sys.issued, sys.served)
    ensures sys.service.buffer + sys.toService[0][..count] == AnswersOf(fs, b0, sys.issued[..sys.served])[sys.delivered]
    ensures AnswersOf(fs, b0, sys.issued[..sys.served])[sys.delivered + 1..]
            == InFlight([], Untaken(sys.toService, count, true)) + sys.client.answers
  {
    hide AnswersOf, NthId;
    TakeWhole(sys.service.buffer, sys.toService, count, sys.client.answers);
    var all := AnswersOf(fs, b0, sys.issued[..sys.served]);
    assert all[sys.delivered..][0] == all[sys.delivered] && all[sys.delivered..][1..] == all[sys.delivered + 1..];
  }

  /** The change that taking up the answer to request `d` makes to the service. */
  ghost predicate Delivers<S(!new)>(fs: Backend<S>, b0: S, sys: System<S>, s': State, d: nat)
    requires Honest(fs) && d < |sys.issued|
  {
    var s := sys.service;
    && s'.connection == s.connection && s'.id == s.id && s'.requests == s.requests && s'.buffer == []
    && match sys.issued[d].ticket
       case None => s'.pending == s.pending && s'.promises == s.promises
       case Some(t) =>
         && t < |s.promises| && s'.pending == s.pending - {IdAt(d)}
         && s'.promises == s.promises[t := Fate(fs, b0, sys.issued, sys.delivered + 1, d)]
  }

  lemma Delivery<S(!new)>(env: Settings, fs: Backend<S>, b0: S, sys: System<S>, d: nat, a: Bytes)
    requires Honest(fs) && Counted(sys) && PendingExactly(fs, b0, sys) && d < |sys.issued|
    requires Fate(fs, b0, sys.issued, sys.delivered, d) == Waiting
    requires Fate(fs, b0, sys.issued, sys.delivered + 1, d) == Fulfilled(a)
    requires sys.issued[d].ticket.Some? ==> sys.issued[d].ticket.value < |sys.service.promises|
    requires |a| >= 5 && IdOf(a) == IdAt(d) && (a[4] == GETCREDS_RESPONSE <==> sys.issued[d].call.GetCreds?)
    ensures Delivers(fs, b0, sys, AfterMessage(env, sys.service.(buffer := []), a), d)
  {
    hide Fate, NthId, IdAt, DecodeData, IdOf;
    if sys.issued[d].ticket.Some? { assert Unanswered(fs, b0, sys, d); }
  }

  /** Answer to `d` taken up. */
  ghost predicate Taken<S(!new)>(fs: Backend<S>, b0: S, sys: System<S>, sys': System<S>, d: nat)
    requires Honest(fs)
  {
    && d < sys.served <= |sys.issued|
    && Delivers(fs, b0, sys, sys'.service, d)
    && sys'.client == sys.client && sys'.toClient == sys.toClient && sys'.issued == sys.issued
    && sys'.served == sys.served && sys'.delivered == sys.delivered + 1
  }

  lemma TakenByReading<S(!new)>(
    env: Settings, fs: Backend<S>, b0: S, before: seq<Promise>, sys: System<S>, count: nat, d: nat)
    requires Honest(fs) && Counted(sys) && PendingExactly(fs, b0, sys) && TicketsInOrder(before, sys)
    requires CanTake(sys.toService, count, true) && d < sys.served
    requires var a := sys.service.buffer + sys.toService[0][..count];
             && AnswerAt(fs, b0, sys.issued, d) == Ok(a)
             && Fate(fs, b0, sys.issued, sys.delivered, d) == Waiting
             && Fate(fs, b0, sys.issued, sys.delivered + 1, d) == Fulfilled(a)
    ensures Taken(fs, b0, sys, AfterServiceReads(env, sys, count, true), d)
    ensures AfterServiceReads(env, sys, count, true).toService == Untaken(sys.toService, count, true)
  {
    AnswerFacts(fs, b0, sys.issued, d);
    Delivery(env, fs, b0, sys, d, sys.service.buffer + sys.toService[0][..count]);
    hide AnswerAt, NthId, IdAt, Delivers, AfterMessage, Fate;
  }

  lemma DeliveredQueues<S(!new)>(fs: Backend<S>, b0: S, sys: System<S>, sys': System<S>, d: nat)
    requires Honest(fs) && Taken(fs, b0, sys, sys', d) && Counted(sys)
    requires RequestsInOrder(sys) && AnswersInOrder(fs, b0, sys)
    requires sys.delivered < |AnswersOf(fs, b0, sys.issued[..sys.served])|
    requires AnswersOf(fs, b0, sys.issued[..sys.served])[sys.delivered + 1..]
             == InFlight([], sys'.toService) + sys.client.answers
    ensures Counted(sys') && RequestsInOrder(sys') && AnswersInOrder(fs, b0, sys')
  {
    hide Fate, NthId, IdAt, Execute, RequestsFrom, AnswersOf, InFlight;
  }

  /** Only the fate of `d` changes, and it was waiting before. */
  ghost predicate OneFate<S(!new)>(fs: Backend<S>, b0: S, sys: System<S>, d: nat)
    requires Honest(fs) && d < |sys.issued|
  {
    && Fate(fs, b0, sys.issued, sys.delivered, d) == Waiting
    && Fate(fs, b0, sys.issued, sys.delivered + 1, d) != Waiting
    && forall i | 0 <= i < |sys.issued| && i != d ::
         Fate(fs, b0, sys.issued, sys.delivered + 1, i) == Fate(fs, b0, sys.issued, sys.delivered, i)
  }

  lemma DeliveredPending<S(!new)>(fs: Backend<S>, b0: S, sys: System<S>, sys': System<S>, d: nat)
    requires Honest(fs) && Taken(fs, b0, sys, sys', d) && Counted(sys) && PendingExactly(fs, b0, sys)
    requires OneFate(fs, b0, sys, d)
    ensures PendingExactly(fs, b0, sys')
  {
    hide Fate, NthId, IdAt;
    forall i | 0 <= i < |sys.issued| && Unanswered(fs, b0, sys', i)
      ensures Unanswered(fs, b0, sys, i) && (sys.issued[d].ticket.Some? ==> IdAt(i) != IdAt(d))
    {
      assert i != d && Unanswered(fs, b0, sys, i);
      if sys.issued[d].ticket.Some? {
        assert Unanswered(fs, b0, sys, d);
        if i < d { SameId(i, d); } else { SameId(d, i); }
      }
    }
    forall k | k in sys'.service.pending
      ensures exists i | 0 <= i < |sys'.issued| :: Unanswered(fs, b0, sys', i) && IdAt(i) == k
    {
      var i :| 0 <= i < |sys.issued| && Unanswered(fs, b0, sys, i) && IdAt(i) == k;
      assert i != d;
      assert Unanswered(fs, b0, sys', i);
    }
  }

  lemma DeliveredFutures<S(!new)>(
    fs: Backend<S>, b0: S, before: seq<Promise>, sys: System<S>, sys': System<S>, d: nat)
    requires Honest(fs) && Taken(fs, b0, sys, sys', d) && Counted(sys) && OneFate(fs, b0, sys, d)
    requires TicketsInOrder(before, sys) && FuturesMatch(fs, b0, sys)
    ensures TicketsInOrder(before, sys') && FuturesMatch(fs, b0, sys')
  {
    hide Fate, NthId, IdAt, Execute;
    var promises, promises' := sys.service.promises, sys'.service.promises;
    forall i | 0 <= i < |sys'.issued| && sys'.issued[i].ticket.Some? && sys'.issued[i].ticket.value < |promises'|
      ensures promises'[sys'.issued[i].ticket.value] == Fate(fs, b0, sys'.issued, sys'.delivered, i)
    {
      if sys.issued[d].ticket.Some? && i != d {
        assert sys.issued[i].ticket.value != sys.issued[d].ticket.value;
      }
    }
    forall t | |before| <= t < |promises'|
      ensures promises'[t] == Rejected || exists i | 0 <= i < |sys'.issued| :: sys'.issued[i].ticket == Some(t)
    {
      if promises[t] != Rejected {
        var i :| 0 <= i < |sys.issued| && sys.issued[i].ticket == Some(t);
        assert sys'.issued[i].ticket == Some(t);
      }
    }
  }

  lemma MoveKeepsInv<S(!new)>(
    env: Settings, fs: Backend<S>, b0: S, before: seq<Promise>, sys: System<S>, move: Move)
    requires Honest(fs) && Inv(fs, b0, before, sys) && Possible(sys, move)
    ensures Inv(fs, b0, before, AfterMove(env, fs, sys, move))
  {
    assert sys.service.connection.Some?;
    hide Inv, AfterServiceReads, AfterClientReads, AfterServiceWrites, AfterClientWrites, AfterCall;
    match move
    case Handshake(token) => SameCore(fs, b0, before, sys, AfterFilter(env, sys.service, token));
    case SecondConnection(conn) => SameCore(fs, b0, before, sys, AfterEstablished(env, sys.service, conn));
    case OtherClosed(conn) => SameCore(fs, b0, before, sys, AfterClosed(sys.service, conn));
    case ServicePoll => SameCore(fs, b0, before, sys, AfterPoll(sys.service));
    case MakeCall(call) => CallKeepsInv(fs, b0, before, sys, call);
    case ServiceWrites => ServiceWriteKeepsInv(fs, b0, before, sys);
    case ClientWrites => ClientWriteKeepsInv(fs, b0, before, sys);
    case ServiceReads(count, final) =>
      if final {
        DeliverKeepsInv(env, fs, b0, before, sys, count);
      } else {
        ServicePartKeepsInv(env, fs, b0, before, sys, count);
      }
    case ClientReads(count, final) =>
      if final {
        ServeKeepsInv(fs, b0, before, sys, count);
      } else {
        ClientPartKeepsInv(fs, b0, before, sys, count);
      }
  }

  // ----- Runs -----

  predicate CanMove<S(!new)>(env: Settings, fs: Backend<S>, sys: System<S>, moves: seq<Move>)
    requires Honest(fs)
    decreases |moves|
  {
    moves == [] || (Possible(sys, moves[0]) && CanMove(env, fs, AfterMove(env, fs, sys, moves[0]), moves[1..]))
  }

  function AfterMoves<S(!new)>(env: Settings, fs: Backend<S>, sys: System<S>, moves: seq<Move>): System<S>
    requires Honest(fs) && CanMove(env, fs, sys, moves)
    decreases |moves|
  {
    if moves == [] then sys else AfterMoves(env, fs, AfterMove(env, fs, sys, moves[0]), moves[1..])
  }

  lemma {:induction false} RunKeepsInv<S(!new)>(
    env: Settings, fs: Backend<S>, b0: S, before: seq<Promise>, sys: System<S>, moves: seq<Move>)
    requires Honest(fs) && Inv(fs, b0, before, sys) && CanMove(env, fs, sys, moves)
    ensures Inv(fs, b0, before, AfterMoves(env, fs, sys, moves))
    decreases |moves|
  {
    hide Inv, AfterMove, Possible;
    if moves != [] {
      MoveKeepsInv(env, fs, b0, before, sys, moves[0]);
      RunKeepsInv(env, fs, b0, before, AfterMove(env, fs, sys, moves[0]), moves[1..]);
    }
  }

  /** Nothing is left over from an earlier connection. */
  predicate Clean(s: State) {
    s.connection.None? && s.requests == [] && s.pending == map[] && s.buffer == []
  }

  lemma CleanStart<S(!new)>(env: Settings, fs: Backend<S>, s: State, c: Conn, client: ClientState<S>)
    requires Honest(fs) && Clean(s)
    ensures Inv(fs, client.backend, s.promises, Connect(env, s, c, client))
  {
    var sys := Connect(env, s, c, client);
    assert RequestsFrom(sys.issued, 0) == sys.service.requests by {
      if sys.issued != [] { assert RequestAt(sys.issued, 0) == MessageOf(1, GETCREDS, []); }
    }
    hide RequestMessage, MessageOf, AnswerAt;
    assert InFlight([], []) + sys.service.requests == sys.service.requests;
    assert sys.issued[..0] == [] && AnswersOf(fs, client.backend, []) == InFlight([], []) + [];
  }

  /** The system after any run on a connection that started clean. */
  ghost predicate Reached<S(!new)>(
    env: Settings, fs: Backend<S>, s: State, c: Conn, client: ClientState<S>, moves: seq<Move>, sys: System<S>)
    requires Honest(fs)
  {
    && Clean(s)
    && CanMove(env, fs, Connect(env, s, c, client), moves)
    && sys == AfterMoves(env, fs, Connect(env, s, c, client), moves)
  }

  lemma ReachedInv<S(!new)>(
    env: Settings, fs: Backend<S>, s: State, c: Conn, client: ClientState<S>, moves: seq<Move>, sys: System<S>)
    requires Honest(fs) && Reached(env, fs, s, c, client, moves, sys)
    ensures Inv(fs, client.backend, s.promises, sys)
  {
    hide Inv;
    CleanStart(env, fs, s, c, client);
    RunKeepsInv(env, fs, client.backend, s.promises, Connect(env, s, c, client), moves);
  }

  // ----- Main results -----

  /**
   Each issued request has a future of its own, handed out in order of issue, which holds the provider's answer to that
   very request once it has been taken up and waits before; every other future is a rejected one; futures
   handed out before are untouched; and the backend is where direct calls in order of issue would have left it.
   */
  ghost predicate Correlated<S(!new)>(fs: Backend<S>, b0: S, before: seq<Promise>, sys: System<S>)
    requires Honest(fs)
  {
    && TicketsInOrder(before, sys) && FuturesMatch(fs, b0, sys)
    && sys.served <= |sys.issued| && sys.client.backend == Execute(fs, b0, sys.issued[..sys.served])
  }

  /**
   End-to-end correlation, under any interleaving of calls, writes and fragments on a connection that starts clean.
   Calls that throw leave holes in the sequence of answers, so what tells answers apart is their identifiers.
   */
  lemma Correlation<S(!new)>(
    env: Settings, fs: Backend<S>, s: State, c: Conn, client: ClientState<S>, moves: seq<Move>, sys: System<S>)
    requires Honest(fs) && Reached(env, fs, s, c, client, moves, sys)
    ensures Correlated(fs, client.backend, s.promises, sys)
  {
    hide Fate, RequestsFrom, AnswersOf, Execute, Reached;
    ReachedInv(env, fs, s, c, client, moves, sys);
  }

  /** What a direct caller would see, in its normal form; of a throw the remote caller sees the fallback. */
  function DirectOutcome<S(!new)>(fs: Backend<S>, b0: S, issued: seq<Issue>, i: nat, out: Outs): Reply
    requires Honest(fs) && i < |issued| && !issued[i].call.GetCreds?
  {
    var call := issued[i].call;
    match DirectReply(fs, b0, issued, i)
    case Ok(reply) => Seen(out, NormalOutcome(Direct(Normal(call), reply)))
    case Throw => FallbackOn(call, out)
  }

  /** What the caller makes of a request's own answer: the outcome of the direct call. */
  lemma OutcomeOfAnswer<S(!new)>(fs: Backend<S>, b0: S, issued: seq<Issue>, i: nat, out: Outs)
    requires Honest(fs) && i < |issued| && !issued[i].call.GetCreds? && AnswerAt(fs, b0, issued, i).Ok?
    ensures Finish(issued[i].call, Arrived(AnswerAt(fs, b0, issued, i).value), out)
            == DirectOutcome(fs, b0, issued, i, out)
  {
    hide Finish, NormalOutcome, Direct, MessageOf, ReplyFields, Normal, RequestMessage, IdAt, Seen, Dispatch,
      FallbackOn;
    var b := Execute(fs, b0, issued[..i]);
    RequestIsServed(fs, b, IdAt(i), issued[i].call);
    CallTransparency(fs, b, IdAt(i), issued[i].call, out);
  }

  /** How the caller's wait ends: a future that is still open when it gives up counts as a timeout. */
  function ArrivalOf(p: Promise): Arrival {
    match p
    case Fulfilled(m) => Arrived(m)
    case Rejected => Unauthenticated
    case Dropped => Broken
    case Waiting => Timeout
  }

  /**
   The whole system behaves like direct calls made one after the other in the order of issue: the caller of an
   issued request gets its call's direct outcome, on the backend that the earlier calls left, or, if it stops
   waiting before an answer is taken up, the fallback.  The backend itself is where those direct calls leave it.
   */
  lemma RemoteCallsAreSequential<S(!new)>(
    env: Settings, fs: Backend<S>, s: State, c: Conn, client: ClientState<S>, moves: seq<Move>, sys: System<S>, i: nat,
    out: Outs)
    requires Honest(fs) && Reached(env, fs, s, c, client, moves, sys)
    requires i < |sys.issued| && sys.issued[i].ticket.Some?
    ensures !sys.issued[i].call.GetCreds? && sys.issued[i].ticket.value < |sys.service.promises|
    ensures Finish(sys.issued[i].call, ArrivalOf(sys.service.promises[sys.issued[i].ticket.value]), out)
            == if Fate(fs, client.backend, sys.issued, sys.delivered, i) == Waiting
               then FallbackOn(sys.issued[i].call, out)
               else DirectOutcome(fs, client.backend, sys.issued, i, out)
    ensures sys.served <= |sys.issued|
    ensures sys.client.backend == Execute(fs, client.backend, sys.issued[..sys.served])
  {
    Correlation(env, fs, s, c, client, moves, sys);
    ReachedInv(env, fs, s, c, client, moves, sys);
    NoTicketForCredentials(fs, client.backend, s.promises, sys, i);
    if AnswerAt(fs, client.backend, sys.issued, i).Ok? {
      OutcomeOfAnswer(fs, client.backend, sys.issued, i, out);
    }
    hide AnswerAt, AnswersOf, Execute, DirectOutcome, FallbackOn, ParseReply, Reached, Inv, Rank;
  }

  lemma NoTicketForCredentials<S(!new)>(fs: Backend<S>, b0: S, before: seq<Promise>, sys: System<S>, i: nat)
    requires Honest(fs) && Inv(fs, b0, before, sys) && i < |sys.issued| && sys.issued[i].ticket.Some?
    ensures !sys.issued[i].call.GetCreds?
  {
  }

  /** Nothing queued and nothing in flight. */
  predicate Idle<S>(sys: System<S>) {
    sys.service.requests == [] && sys.toClient == [] && sys.client.answers == [] && sys.toService == []
  }

  /** What a request's future holds when everything has been done that will be done for it. */
  function Settled<S(!new)>(fs: Backend<S>, b0: S, issued: seq<Issue>, i: nat): Promise
    requires Honest(fs) && i < |issued|
  {
    match AnswerAt(fs, b0, issued, i)
    case Ok(a) => Fulfilled(a)
    case Throw => Waiting
  }

  /** Every issued request has been run, and its future holds its own answer unless its call threw. */
  ghost predicate AllSettled<S(!new)>(fs: Backend<S>, b0: S, sys: System<S>)
    requires Honest(fs)
  {
    && sys.served == |sys.issued|
    && forall i | 0 <= i < |sys.issued| && sys.issued[i].ticket.Some? ::
         sys.issued[i].ticket.value < |sys.service.promises|
         && sys.service.promises[sys.issued[i].ticket.value] == Settled(fs, b0, sys.issued, i)
  }

  /** Every future of the connection has an answer, and none is pending. */
  ghost predicate AllAnswered<S>(sys: System<S>) {
    && sys.service.pending == map[]
    && forall i | 0 <= i < |sys.issued| && sys.issued[i].ticket.Some? ::
         sys.issued[i].ticket.value < |sys.service.promises|
         && sys.service.promises[sys.issued[i].ticket.value].Fulfilled?
  }

  ghost predicate NoCallThrows<S(!new)>(fs: Backend<S>, b0: S, issued: seq<Issue>)
    requires Honest(fs)
  {
    forall i | 0 <= i < |issued| && issued[i].ticket.Some? :: DirectReply(fs, b0, issued, i).Ok?
  }

  lemma FateOfServed<S(!new)>(fs: Backend<S>, b0: S, issued: seq<Issue>, i: nat)
    requires Honest(fs) && i < |issued|
    ensures Fate(fs, b0, issued, Rank(fs, b0, issued, |issued|), i) == Settled(fs, b0, issued, i)
    ensures Settled(fs, b0, issued, i) == Waiting <==> DirectReply(fs, b0, issued, i).Throw?
  {
    if AnswerAt(fs, b0, issued, i).Ok? { AtRank(fs, b0, issued, i, |issued|); }
    hide Rank, DirectReply;
  }

  /** In an idle system all requests have been run and all their answers taken up. */
  lemma IdleIsDone<S(!new)>(fs: Backend<S>, b0: S, before: seq<Promise>, sys: System<S>)
    requires Honest(fs) && Inv(fs, b0, before, sys) && Idle(sys)
    ensures sys.served == |sys.issued| && sys.delivered == Rank(fs, b0, sys.issued, |sys.issued|)
  {
    hide AnswersOf, RequestMessage, Execute, IdAt, NthId, Fate;
    assert |RequestsFrom(sys.issued, sys.served)| == 0;
    assert |AnswersOf(fs, b0, sys.issued[..sys.served])[sys.delivered..]| == 0;
  }

  lemma IdleIsSettled<S(!new)>(fs: Backend<S>, b0: S, before: seq<Promise>, sys: System<S>)
    requires Honest(fs) && Inv(fs, b0, before, sys) && Idle(sys)
    ensures AllSettled(fs, b0, sys)
    ensures forall i | 0 <= i < |sys.issued| ::
              Fate(fs, b0, sys.issued, sys.delivered, i) == Settled(fs, b0, sys.issued, i)
  {
    IdleIsDone(fs, b0, before, sys);
    hide Fate, Settled, RequestsFrom, AnswersOf, Execute, DirectReply, Rank, NthId, IdAt, AnswersInOrder, Idle;
    forall i | 0 <= i < |sys.issued|
      ensures Fate(fs, b0, sys.issued, sys.delivered, i) == Settled(fs, b0, sys.issued, i)
    {
      FateOfServed(fs, b0, sys.issued, i);
    }
  }

  /** When no call threw, no settled future is pending. */
  lemma SettledIsAnswered<S(!new)>(fs: Backend<S>, b0: S, sys: System<S>)
    requires Honest(fs) && PendingExactly(fs, b0, sys) && AllSettled(fs, b0, sys) && NoCallThrows(fs, b0, sys.issued)
    requires forall i | 0 <= i < |sys.issued| ::
               Fate(fs, b0, sys.issued, sys.delivered, i) == Settled(fs, b0, sys.issued, i)
    ensures AllAnswered(sys)
  {
    hide Fate, Settled, DirectReply, NthId, IdAt;
    forall i | 0 <= i < |sys.issued| && sys.issued[i].ticket.Some?
      ensures Settled(fs, b0, sys.issued, i).Fulfilled? && !Unanswered(fs, b0, sys, i)
    {
      FateOfServed(fs, b0, sys.issued, i);
      SettledKinds(fs, b0, sys.issued, i);
    }
    assert forall k :: k !in sys.service.pending;
  }

  /**
   Nothing is lost: once nothing is queued or in flight, every issued request has been run and has its own answer
   unless its call threw.  So all are answered exactly when no call threw.
   */
  lemma IdleMeansAnswered<S(!new)>(
    env: Settings, fs: Backend<S>, s: State, c: Conn, client: ClientState<S>, moves: seq<Move>, sys: System<S>)
    requires Honest(fs) && Reached(env, fs, s, c, client, moves, sys) && Idle(sys)
    ensures AllSettled(fs, client.backend, sys)
    ensures AllAnswered(sys) <==> NoCallThrows(fs, client.backend, sys.issued)
  {
    var b0 := client.backend;
    ReachedInv(env, fs, s, c, client, moves, sys);
    IdleIsSettled(fs, b0, s.promises, sys);
    hide Fate, Settled, Reached, DirectReply, PendingExactly, Counted, RequestsInOrder, AnswersInOrder, TicketsInOrder,
      FuturesMatch, Idle;
    if NoCallThrows(fs, b0, sys.issued) { SettledIsAnswered(fs, b0, sys); }
    if AllAnswered(sys) {
      forall i | 0 <= i < |sys.issued| && sys.issued[i].ticket.Some?
        ensures DirectReply(fs, b0, sys.issued, i).Ok?
      {
        FateOfServed(fs, b0, sys.issued, i);
      }
    }
  }

  lemma SettledKinds<S(!new)>(fs: Backend<S>, b0: S, issued: seq<Issue>, i: nat)
    requires Honest(fs) && i < |issued|
    ensures Settled(fs, b0, issued, i).Fulfilled? || Settled(fs, b0, issued, i) == Waiting
  {
  }

  // ----- Progress -----

  /** What there is left to do; a service that has not asked for a callback must be polled first. */
  function Work<S>(sys: System<S>): nat {
    5 * |sys.service.requests| + 3 * |sys.toClient| + 2 * |sys.client.answers| + |sys.toService|
    + (if sys.service.armed then 0 else 1)
  }

  /** A connected service can be polled, and a client with answers has asked for a callback. */
  predicate Driven<S>(sys: System<S>) {
    sys.service.connection.Some? && (sys.client.answers != [] ==> sys.client.armed)
  }

  /** What the socket library or the service loop does next. */
  function NextMove<S>(sys: System<S>): Move {
    if sys.toService != [] then ServiceReads(|sys.toService[0]|, true)
    else if sys.client.answers != [] then ClientWrites
    else if sys.toClient != [] then ClientReads(|sys.toClient[0]|, true)
    else if sys.service.armed then ServiceWrites
    else ServicePoll
  }

  lemma LessWork<S(!new)>(env: Settings, fs: Backend<S>, sys: System<S>)
    requires Honest(fs) && Driven(sys) && !sys.service.shutdown && !Idle(sys)
    ensures Possible(sys, NextMove(sys))
    ensures var sys' := AfterMove(env, fs, sys, NextMove(sys));
            Work(sys') < Work(sys) && sys'.issued == sys.issued && Driven(sys')
  {
    hide Dispatch, DecodeData, IdOf;
  }

  /**
   Some run without further calls, in which either side writes only when it has asked for a callback, makes a system
   idle, unless rejected credentials stop the writing.
   */
  lemma {:induction false} CanBecomeIdle<S(!new)>(env: Settings, fs: Backend<S>, sys: System<S>)
    returns (moves: seq<Move>)
    requires Honest(fs) && Driven(sys)
    ensures CanMove(env, fs, sys, moves)
    ensures var end := AfterMoves(env, fs, sys, moves); (end.service.shutdown || Idle(end)) && end.issued == sys.issued
    decreases Work(sys)
  {
    if sys.service.shutdown || Idle(sys) {
      moves := [];
    } else {
      LessWork(env, fs, sys);
      hide AfterMove, Possible, Driven, NextMove;
      var rest := CanBecomeIdle(env, fs, AfterMove(env, fs, sys, NextMove(sys)));
      moves := [NextMove(sys)] + rest;
      assert moves[1..] == rest;
    }
  }

  lemma {:induction false} MovesAppend<S(!new)>(
    env: Settings, fs: Backend<S>, sys: System<S>, a: seq<Move>, b: seq<Move>)
    requires Honest(fs) && CanMove(env, fs, sys, a) && CanMove(env, fs, AfterMoves(env, fs, sys, a), b)
    ensures CanMove(env, fs, sys, a + b)
    ensures AfterMoves(env, fs, sys, a + b) == AfterMoves(env, fs, AfterMoves(env, fs, sys, a), b)
    decreases |a|
  {
    hide AfterMove, Possible;
    if a == [] {
      assert a + b == b;
    } else {
      assert (a + b)[1..] == a[1..] + b;
      MovesAppend(env, fs, AfterMove(env, fs, sys, a[0]), a[1..], b);
    }
  }

  lemma InvDrives<S(!new)>(fs: Backend<S>, b0: S, before: seq<Promise>, sys: System<S>)
    requires Honest(fs) && Inv(fs, b0, before, sys)
    ensures Driven(sys)
  {
  }

  /**
   No run gets stuck: from every reached state the run can go on, without further calls, until every issued request has
   been run and its future holds its own answer, unless its call threw or rejected credentials shut the connection down.
   */
  lemma EveryCallCanBeAnswered<S(!new)>(
    env: Settings, fs: Backend<S>, s: State, c: Conn, client: ClientState<S>, moves: seq<Move>, sys: System<S>)
    returns (more: seq<Move>, end: System<S>)
    requires Honest(fs) && Reached(env, fs, s, c, client, moves, sys)
    ensures Reached(env, fs, s, c, client, moves + more, end) && end.issued == sys.issued
    ensures end.service.shutdown || AllSettled(fs, client.backend, end)
    ensures !end.service.shutdown && NoCallThrows(fs, client.backend, sys.issued) ==> AllAnswered(end)
  {
    hide AfterMoves, CanMove, AllSettled, AllAnswered, NoCallThrows, Idle, Connect, Inv, Driven;
    ReachedInv(env, fs, s, c, client, moves, sys);
    InvDrives(fs, client.backend, s.promises, sys);
    more := CanBecomeIdle(env, fs, sys);
    end := AfterMoves(env, fs, sys, more);
    MovesAppend(env, fs, Connect(env, s, c, client), moves, more);
    if !end.service.shutdown {
      IdleMeansAnswered(env, fs, s, c, client, moves + more, end);
    }
  }

  lemma FateKinds<S(!new)>(fs: Backend<S>, b0: S, issued: seq<Issue>, delivered: nat, i: nat)
    requires Honest(fs) && i < |issued|
    ensures var fate := Fate(fs, b0, issued, delivered, i); fate == Waiting || fate.Fulfilled?
  {
  }

  /** Room is needed: without it the new request's future breaks at once. */
  lemma CallWithoutRoomBreaks<S(!new)>(fs: Backend<S>, b0: S, before: seq<Promise>, sys: System<S>, call: Call)
    requires Honest(fs) && sys.service.authenticated && !Room(sys)
    ensures !Correlated(fs, b0, before, AfterCall(sys, call))
  {
    hide Fate, Execute, NthId, RequestMessage, AnswersOf, RequestsFrom, InFlight;
    var n := |sys.issued|;
    RequestHasHeader(0, call);
    FateKinds(fs, b0, AfterCall(sys, call).issued, sys.delivered, n);
    assert AfterCall(sys, call).issued[n].ticket == Some(|sys.service.promises|);
    assert AfterCall(sys, call).service.promises[|sys.service.promises|] == Dropped;
  }

  /** No answer has been taken up, and every request has a future. */
  ghost predicate OnlyCalls<S>(sys: System<S>) {
    && sys.service.authenticated && sys.delivered == 0
    && forall i | 0 <= i < |sys.issued| :: sys.issued[i].ticket.Some?
  }

  lemma OneCall<S(!new)>(env: Settings, fs: Backend<S>, b0: S, before: seq<Promise>, sys: System<S>, call: Call)
    requires Honest(fs) && Inv(fs, b0, before, sys) && OnlyCalls(sys) && !call.GetCreds?
    requires |sys.issued| < TWO32 - 1
    ensures Possible(sys, MakeCall(call))
    ensures var sys' := AfterMove(env, fs, sys, MakeCall(call));
            Inv(fs, b0, before, sys') && OnlyCalls(sys') && |sys'.issued| == |sys.issued| + 1
  {
    hide Counted, RequestsInOrder, AnswersInOrder, PendingExactly, TicketsInOrder, FuturesMatch, Unanswered, Room,
      IdAt, AfterCall;
    NoRoomIff(fs, b0, sys);
    CallKeepsInv(fs, b0, before, sys, call);
    CallAddsTicket(sys, call);
    assert AfterMove(env, fs, sys, MakeCall(call)) == AfterCall(sys, call);
    hide AfterMove, Inv;
  }

  lemma CallAddsTicket<S>(sys: System<S>, call: Call)
    requires OnlyCalls(sys)
    ensures OnlyCalls(AfterCall(sys, call)) && |AfterCall(sys, call).issued| == |sys.issued| + 1
  {
    hide RequestMessage, NextId, WithId;
    RequestHasHeader(0, call);
  }

  lemma {:induction false} ManyCalls<S(!new)>(
    env: Settings, fs: Backend<S>, b0: S, before: seq<Promise>, sys: System<S>, call: Call, n: nat)
    returns (moves: seq<Move>)
    requires Honest(fs) && Inv(fs, b0, before, sys) && OnlyCalls(sys) && !call.GetCreds?
    requires |sys.issued| + n <= TWO32 - 1
    ensures CanMove(env, fs, sys, moves)
    ensures var end := AfterMoves(env, fs, sys, moves);
            Inv(fs, b0, before, end) && OnlyCalls(end) && |end.issued| == |sys.issued| + n
    decreases n
  {
    hide Inv, OnlyCalls, AfterMove, Possible;
    if n == 0 {
      moves := [];
    } else {
      OneCall(env, fs, b0, before, sys, call);
      var later := ManyCalls(env, fs, b0, before, AfterMove(env, fs, sys, MakeCall(call)), call, n - 1);
      moves := [MakeCall(call)] + later;
      assert moves[1..] == later;
    }
  }

  lemma NothingDelivered<S(!new)>(fs: Backend<S>, b0: S, sys: System<S>, i: nat)
    requires Honest(fs) && OnlyCalls(sys) && i < |sys.issued|
    ensures Unanswered(fs, b0, sys, i)
  {
    hide AnswerAt, Rank;
  }

  /**
   The room does run out: on any clean connection of an authenticated service 2^32 - 1 calls can be made before an
   answer is taken up, and then the next call breaks correlation.
   */
  lemma RoomRunsOut<S(!new)>(env: Settings, fs: Backend<S>, s: State, c: Conn, client: ClientState<S>, call: Call)
    returns (moves: seq<Move>, end: System<S>)
    requires Honest(fs) && Clean(s) && s.authenticated && !call.GetCreds?
    ensures Reached(env, fs, s, c, client, moves, end)
    ensures |end.issued| == TWO32 - 1 && !Room(end)
    ensures !Correlated(fs, client.backend, s.promises, AfterCall(end, call))
  {
    var start := Connect(env, s, c, client);
    CleanStart(env, fs, s, c, client);
    assert OnlyCalls(start) && start.issued == [];
    moves := ManyCalls(env, fs, client.backend, s.promises, start, call, TWO32 - 1);
    end := AfterMoves(env, fs, start, moves);
    hide AfterMoves, CanMove, Connect, AfterCall, Correlated, Room;
    NothingDelivered(fs, client.backend, end, 0);
    NoRoomIff(fs, client.backend, end);
    CallWithoutRoomBreaks(fs, client.backend, s.promises, end, call);
  }
}
