/**
 Service, provider and the two message channels between them, for the life of one
 connection.

 A channel holds the unread part of each message in flight; a receiver takes any part of the
 first one, with the final-fragment flag only when it takes the rest.  The moves may
 happen in any order.
 */
module System {
  import opened Bytes
  import opened Message
  import opened Calls
  import opened Remote
  import opened Service
  import opened Client

  /** A request put in the queue: the future handed out for it (none for the credentials request) and its call. */
  datatype Issue = Issue(ticket: Option<Ticket>, call: Call)

  datatype System<S> = System(
    service: State,
    client: ClientState<S>,
    toClient: seq<Bytes>,
    toService: seq<Bytes>,
    // history: the requests issued on this connection, how many of them the provider has taken up, and how
    // many answers the service has taken up
    issued: seq<Issue>,
    served: nat,
    delivered: nat)

  datatype Move =
    | Handshake(token: Bytes)       // any client, also one that is refused later
    | SecondConnection(conn: Conn)
    | OtherClosed(conn: Conn)
    | ServicePoll
    | MakeCall(call: Call)          // the service's filesystem performs an operation
    | ServiceWrites
    | ServiceReads(count: nat, final: bool)
    | ClientReads(count: nat, final: bool)
    | ClientWrites

  predicate CanTake(channel: seq<Bytes>, count: nat, final: bool) {
    channel != [] && count <= |channel[0]| && (final ==> count == |channel[0]|)
  }

  function Untaken(channel: seq<Bytes>, count: nat, final: bool): seq<Bytes>
    requires CanTake(channel, count, final)
  {
    if final then channel[1..] else [channel[0][count..]] + channel[1..]
  }

  /** The next identifier is not one under which a request of this connection is still pending. */
  predicate Room<S>(sys: System<S>) {
    var id := NextId(sys.service.id);
    id in sys.service.pending ==>
      forall i | 0 <= i < |sys.issued| :: sys.issued[i].ticket != Some(sys.service.pending[id])
  }

  /** Calls are the operations of `filesystem`; a side writes when it has asked for a writable callback. */
  predicate Possible<S>(sys: System<S>, move: Move) {
    match move
    case MakeCall(call) => !call.GetCreds? && (sys.service.authenticated ==> Room(sys))
    case OtherClosed(conn) => sys.service.connection != Some(conn)
    case ServiceWrites => sys.service.armed
    case ClientWrites => sys.client.armed
    case ServiceReads(count, final) => CanTake(sys.toService, count, final)
    case ClientReads(count, final) => CanTake(sys.toClient, count, final)
    case _ => true
  }

  function AfterCall<S>(sys: System<S>, call: Call): System<S> {
    var ticket := |sys.service.promises|;
    RequestHasHeader(0, call);
    sys.(service := AfterPerform(sys.service, RequestMessage(0, call)),
         issued := if sys.service.authenticated then sys.issued + [Issue(Some(ticket), call)] else sys.issued)
  }

  function AfterServiceWrites<S>(sys: System<S>): System<S> {
    var s := sys.service;
    sys.(service := AfterWritable(s),
         toClient := if s.shutdown || s.requests == [] then sys.toClient else sys.toClient + [s.requests[0]])
  }

  function AfterServiceReads<S>(env: Settings, sys: System<S>, count: nat, final: bool): System<S>
    requires CanTake(sys.toService, count, final)
  {
    sys.(service := AfterReceive(env, sys.service, sys.toService[0][..count], final),
         toService := Untaken(sys.toService, count, final),
         delivered := if final then sys.delivered + 1 else sys.delivered)
  }

  function AfterClientReads<S(!new)>(fs: Backend<S>, sys: System<S>, count: nat, final: bool): System<S>
    requires Honest(fs) && CanTake(sys.toClient, count, final)
  {
    sys.(client := AfterClientReceive(fs, sys.client, sys.toClient[0][..count], final),
         toClient := Untaken(sys.toClient, count, final),
         served := if final then sys.served + 1 else sys.served)
  }

  function AfterClientWrites<S>(sys: System<S>): System<S> {
    var c := sys.client;
    sys.(client := AfterClientWritable(c),
         toService := if c.answers == [] then sys.toService else sys.toService + [c.answers[0]])
  }

  function AfterMove<S(!new)>(env: Settings, fs: Backend<S>, sys: System<S>, move: Move): System<S>
    requires Honest(fs) && Possible(sys, move)
  {
    match move
    case Handshake(token) => sys.(service := AfterFilter(env, sys.service, token))
    case SecondConnection(conn) => sys.(service := AfterEstablished(env, sys.service, conn))
    case OtherClosed(conn) => sys.(service := AfterClosed(sys.service, conn))
    case ServicePoll => sys.(service := AfterPoll(sys.service))
    case MakeCall(call) => AfterCall(sys, call)
    case ServiceWrites => AfterServiceWrites(sys)
    case ServiceReads(count, final) => AfterServiceReads(env, sys, count, final)
    case ClientReads(count, final) => AfterClientReads(fs, sys, count, final)
    case ClientWrites => AfterClientWrites(sys)
  }

  /** A new connection between a service and a provider that has just started or reconnected. */
  function Connect<S>(env: Settings, s: State, c: Conn, client: ClientState<S>): System<S> {
    System(AfterEstablished(env, s, c), AfterDisconnect(client), [], [],
           if s.connection.None? && !s.authenticated && env.authenticator != "" then [Issue(None, GetCreds)] else [],
           0, 0)
  }

  // ----- Specification: the requests and their answers, one after the other -----

  function IdAt(i: nat): u32 {
    NthId(i + 1)
  }

  function RequestAt(issued: seq<Issue>, i: nat): Bytes
    requires i < |issued|
  {
    RequestMessage(IdAt(i), issued[i].call)
  }

  /** The backend after running the calls directly, in the order in which they were issued. */
  function Execute<S>(fs: Backend<S>, initial: S, issued: seq<Issue>): S
    decreases |issued|
  {
    if issued == [] then initial
    else
      var n := |issued| - 1;
      fs(Execute(fs, initial, issued[..n]), Normal(issued[n].call)).0
  }

  /** What the backend answers directly to the `i`-th call. */
  function DirectReply<S>(fs: Backend<S>, initial: S, issued: seq<Issue>, i: nat): Result<Reply>
    requires i < |issued|
  {
    fs(Execute(fs, initial, issued[..i]), Normal(issued[i].call)).1
  }

  /** The answer that belongs to the `i`-th request, unless its call throws. */
  function AnswerAt<S(!new)>(fs: Backend<S>, initial: S, issued: seq<Issue>, i: nat): Result<Bytes>
    requires Honest(fs) && i < |issued|
  {
    var call := issued[i].call;
    Answer(IdAt(i), TypeCode(call), Normal(call), DirectReply(fs, initial, issued, i))
  }

  /** The answers to all requests whose calls do not throw, in the order of issue. */
  function AnswersOf<S(!new)>(fs: Backend<S>, initial: S, issued: seq<Issue>): seq<Bytes>
    requires Honest(fs)
    decreases |issued|
  {
    if issued == [] then []
    else
      var n := |issued| - 1;
      AnswersOf(fs, initial, issued[..n]) + (match AnswerAt(fs, initial, issued, n) case Ok(a) => [a] case Throw => [])
  }

  /** How many of the requests before the `i`-th are answered. */
  function Rank<S(!new)>(fs: Backend<S>, initial: S, issued: seq<Issue>, i: nat): nat
    requires Honest(fs) && i <= |issued|
  {
    |AnswersOf(fs, initial, issued[..i])|
  }

  /**
   What the future of the `i`-th request should hold when `delivered` answers have been taken up: its own answer
   once that is among them.
   */
  function Fate<S(!new)>(fs: Backend<S>, initial: S, issued: seq<Issue>, delivered: nat, i: nat): Promise
    requires Honest(fs) && i < |issued|
  {
    match AnswerAt(fs, initial, issued, i)
    case Throw => Waiting
    case Ok(a) => if Rank(fs, initial, issued, i) < delivered then Fulfilled(a) else Waiting
  }

  function RequestsFrom(issued: seq<Issue>, k: nat): seq<Bytes>
    requires k <= |issued|
  {
    seq(|issued| - k, j requires 0 <= j < |issued| - k => RequestAt(issued, k + j))
  }

  /** The messages a receiver will still see: its buffer completes the first one. */
  function InFlight(buffer: Bytes, channel: seq<Bytes>): seq<Bytes> {
    if channel == [] then [] else [buffer + channel[0]] + channel[1..]
  }

  // ----- Invariant -----

  ghost predicate Counted<S>(sys: System<S>) {
    && sys.service.connection.Some?
    && sys.served <= |sys.issued|
    && sys.service.id == NthId(|sys.issued|)
    && (sys.toClient == [] ==> sys.client.buffer == [])
    && (sys.toService == [] ==> sys.service.buffer == [])
    && (sys.client.answers != [] ==> sys.client.armed)
    && forall i | 0 <= i < |sys.issued| :: sys.issued[i].ticket.None? <==> sys.issued[i].call.GetCreds?
  }

  /** Requests are in flight or queued in the order of issue. */
  ghost predicate RequestsInOrder<S>(sys: System<S>)
    requires sys.served <= |sys.issued|
  {
    RequestsFrom(sys.issued, sys.served) == InFlight(sys.client.buffer, sys.toClient) + sys.service.requests
  }

  /**
   The backend is where direct execution of the served calls leads.  The answers to those that did not throw have been
   taken up, or are in flight or queued.
   */
  ghost predicate AnswersInOrder<S(!new)>(fs: Backend<S>, initial: S, sys: System<S>)
    requires Honest(fs) && sys.served <= |sys.issued|
  {
    var answers := AnswersOf(fs, initial, sys.issued[..sys.served]);
    && sys.client.backend == Execute(fs, initial, sys.issued[..sys.served])
    && sys.delivered <= |answers|
    && answers[sys.delivered..] == InFlight(sys.service.buffer, sys.toService) + sys.client.answers
  }

  /** The request has a future that is still to get its answer, if one comes. */
  ghost predicate Unanswered<S(!new)>(fs: Backend<S>, initial: S, sys: System<S>, i: nat)
    requires Honest(fs) && i < |sys.issued|
  {
    sys.issued[i].ticket.Some? && Fate(fs, initial, sys.issued, sys.delivered, i) == Waiting
  }

  /** Exactly the open requests are pending, each under its own identifier, and none is 2^32 requests old. */
  ghost predicate PendingExactly<S(!new)>(fs: Backend<S>, initial: S, sys: System<S>)
    requires Honest(fs)
  {
    && (forall i | 0 <= i < |sys.issued| && Unanswered(fs, initial, sys, i) ::
          && IdAt(i) in sys.service.pending && sys.service.pending[IdAt(i)] == sys.issued[i].ticket.value
          && |sys.issued| - i < TWO32)
    && (forall k | k in sys.service.pending ::
          exists i | 0 <= i < |sys.issued| :: Unanswered(fs, initial, sys, i) && IdAt(i) == k)
  }

  /** Futures are handed out in order, one for each request. */
  ghost predicate TicketsInOrder<S>(before: seq<Promise>, sys: System<S>) {
    var promises := sys.service.promises;
    && before <= promises
    && (forall i | 0 <= i < |sys.issued| && sys.issued[i].ticket.Some? ::
          |before| <= sys.issued[i].ticket.value < |promises|)
    && (forall i, j | 0 <= i < j < |sys.issued| && sys.issued[i].ticket.Some? && sys.issued[j].ticket.Some? ::
          sys.issued[i].ticket.value < sys.issued[j].ticket.value)
    && (forall t | |before| <= t < |promises| ::
          promises[t] == Rejected || exists i | 0 <= i < |sys.issued| :: sys.issued[i].ticket == Some(t))
  }

  /** A request's future holds its own answer once that has been taken up, and waits until then. */
  ghost predicate FuturesMatch<S(!new)>(fs: Backend<S>, initial: S, sys: System<S>)
    requires Honest(fs)
  {
    var promises := sys.service.promises;
    forall i | 0 <= i < |sys.issued| && sys.issued[i].ticket.Some? && sys.issued[i].ticket.value < |promises| ::
      promises[sys.issued[i].ticket.value] == Fate(fs, initial, sys.issued, sys.delivered, i)
  }

  ghost predicate Inv<S(!new)>(fs: Backend<S>, initial: S, before: seq<Promise>, sys: System<S>)
    requires Honest(fs)
  {
    && Counted(sys)
    && RequestsInOrder(sys)
    && AnswersInOrder(fs, initial, sys)
    && PendingExactly(fs, initial, sys)
    && TicketsInOrder(before, sys)
    && FuturesMatch(fs, initial, sys)
  }

  // ----- Answers and their ranks -----

  lemma PrefixAnswer<S(!new)>(fs: Backend<S>, initial: S, issued: seq<Issue>, k: nat, i: nat)
    requires Honest(fs) && i < k <= |issued|
    ensures AnswerAt(fs, initial, issued[..k], i) == AnswerAt(fs, initial, issued, i)
  {
    hide Answer, Normal, NthId, Execute, TypeCode;
    assert issued[..k][..i] == issued[..i];
  }

  lemma AnswersSnoc<S(!new)>(fs: Backend<S>, initial: S, issued: seq<Issue>, k: nat)
    requires Honest(fs) && k < |issued|
    ensures AnswersOf(fs, initial, issued[..k + 1])
            == AnswersOf(fs, initial, issued[..k])
               + (match AnswerAt(fs, initial, issued, k) case Ok(a) => [a] case Throw => [])
  {
    hide AnswerAt;
    assert issued[..k + 1][..k] == issued[..k];
    PrefixAnswer(fs, initial, issued, k + 1, k);
  }

  lemma {:induction false} AnswersGrow<S(!new)>(fs: Backend<S>, initial: S, issued: seq<Issue>, i: nat, k: nat)
    requires Honest(fs) && i <= k <= |issued|
    ensures AnswersOf(fs, initial, issued[..i]) <= AnswersOf(fs, initial, issued[..k])
    ensures Rank(fs, initial, issued, i) <= Rank(fs, initial, issued, k)
    decreases k - i
  {
    hide AnswerAt, AnswersOf;
    if i < k {
      AnswersGrow(fs, initial, issued, i, k - 1);
      AnswersSnoc(fs, initial, issued, k - 1);
    }
  }

  /** An answer's place among the answers is its rank. */
  lemma AtRank<S(!new)>(fs: Backend<S>, initial: S, issued: seq<Issue>, i: nat, k: nat)
    requires Honest(fs) && i < k <= |issued| && AnswerAt(fs, initial, issued, i).Ok?
    ensures Rank(fs, initial, issued, i) < Rank(fs, initial, issued, k)
    ensures AnswersOf(fs, initial, issued[..k])[Rank(fs, initial, issued, i)]
            == AnswerAt(fs, initial, issued, i).value
  {
    hide AnswerAt, AnswersOf;
    AnswersSnoc(fs, initial, issued, i);
    AnswersGrow(fs, initial, issued, i + 1, k);
  }

  /** Every place among the answers belongs to a request. */
  lemma {:induction false} Locate<S(!new)>(fs: Backend<S>, initial: S, issued: seq<Issue>, k: nat, place: nat)
    returns (i: nat)
    requires Honest(fs) && k <= |issued| && place < Rank(fs, initial, issued, k)
    ensures i < k && AnswerAt(fs, initial, issued, i).Ok? && Rank(fs, initial, issued, i) == place
    decreases k
  {
    if k == 0 { assert false; }
    hide AnswerAt, AnswersOf;
    AnswersSnoc(fs, initial, issued, k - 1);
    if place < Rank(fs, initial, issued, k - 1) {
      i := Locate(fs, initial, issued, k - 1, place);
    } else {
      i := k - 1;
    }
  }

  // ----- How futures' fates change -----

  /** Issuing one more request changes nothing about the earlier ones, and the new one waits. */
  lemma FateOnIssue<S(!new)>(
    fs: Backend<S>, initial: S, issued: seq<Issue>, more: Issue, served: nat, delivered: nat)
    requires Honest(fs) && served <= |issued| && delivered <= Rank(fs, initial, issued, served)
    ensures forall i | 0 <= i < |issued| ::
              Fate(fs, initial, issued + [more], delivered, i) == Fate(fs, initial, issued, delivered, i)
    ensures Fate(fs, initial, issued + [more], delivered, |issued|) == Waiting
  {
    var n := |issued|;
    var all := issued + [more];
    assert all[..n] == issued && all[..served] == issued[..served];
    hide AnswerAt, AnswersOf;
    forall i | 0 <= i < n ensures Fate(fs, initial, all, delivered, i) == Fate(fs, initial, issued, delivered, i) {
      PrefixAnswer(fs, initial, all, n, i);
      assert all[..i] == issued[..i];
    }
    AnswersGrow(fs, initial, all, served, n);
  }

  /** The next answer to be taken up belongs to one waiting request; taking it up changes that request's fate alone. */
  lemma FateOnDelivery<S(!new)>(fs: Backend<S>, initial: S, issued: seq<Issue>, served: nat, delivered: nat)
    returns (d: nat)
    requires Honest(fs) && served <= |issued| && delivered < Rank(fs, initial, issued, served)
    ensures d < served && Fate(fs, initial, issued, delivered, d) == Waiting
    ensures var a := AnswersOf(fs, initial, issued[..served])[delivered];
            AnswerAt(fs, initial, issued, d) == Ok(a) && Fate(fs, initial, issued, delivered + 1, d) == Fulfilled(a)
    ensures forall i | 0 <= i < |issued| && i != d ::
              Fate(fs, initial, issued, delivered + 1, i) == Fate(fs, initial, issued, delivered, i)
  {
    d := Locate(fs, initial, issued, served, delivered);
    hide AnswerAt, AnswersOf, Rank;
    AtRank(fs, initial, issued, d, served);
    forall i | 0 <= i < |issued| && i != d
      ensures Fate(fs, initial, issued, delivered + 1, i) == Fate(fs, initial, issued, delivered, i)
    {
      if AnswerAt(fs, initial, issued, i).Ok? {
        if i < d { AtRank(fs, initial, issued, i, d); } else { AtRank(fs, initial, issued, d, i); }
      }
    }
  }

  // ----- Supporting facts -----

  lemma RequestHasHeader(id: u32, call: Call)
    ensures |RequestMessage(id, call)| >= 5
  {
    hide MessageOf, RequestFields;
    HeaderOf(id, TypeCode(call), RequestFields(call));
  }

  /** Among requests at most 2^32 - 1 apart only the furthest have the same identifier. */
  lemma SameId(i: nat, j: nat)
    requires i < j && j - i < TWO32
    ensures IdAt(i) == IdAt(j) <==> j - i == TWO32 - 1
  {
    NthIdRepeats(i + 1, j + 1);
  }

  lemma AnswerFacts<S(!new)>(fs: Backend<S>, initial: S, issued: seq<Issue>, i: nat)
    requires Honest(fs) && i < |issued| && AnswerAt(fs, initial, issued, i).Ok?
    ensures var a := AnswerAt(fs, initial, issued, i).value;
            |a| >= 5 && IdOf(a) == IdAt(i) && (a[4] == GETCREDS_RESPONSE <==> issued[i].call.GetCreds?)
  {
    hide MessageOf, ReplyFields, Normal, IdOf;
    HeaderOf(IdAt(i), ResponseType(TypeCode(issued[i].call)),
             ReplyFields(Normal(issued[i].call), DirectReply(fs, initial, issued, i).value));
  }

  lemma RequestsSnoc(issued: seq<Issue>, more: Issue, k: nat)
    requires k <= |issued|
    ensures RequestsFrom(issued + [more], k) == RequestsFrom(issued, k) + [RequestAt(issued + [more], |issued|)]
  {
    hide RequestMessage, NthId;
    var a := RequestsFrom(issued + [more], k);
    var b := RequestsFrom(issued, k) + [RequestAt(issued + [more], |issued|)];
    forall j | 0 <= j < |a| ensures a[j] == b[j] {
      assert a[j] == RequestAt(issued + [more], k + j);
      if j < |issued| - k { assert RequestsFrom(issued, k)[j] == RequestAt(issued, k + j); }
    }
  }

  lemma TakeFirst(buffer: Bytes, channel: seq<Bytes>, count: nat, more: seq<Bytes>)
    requires CanTake(channel, count, false)
    ensures InFlight(buffer + channel[0][..count], Untaken(channel, count, false)) + more
            == InFlight(buffer, channel) + more
  {
    assert buffer + channel[0][..count] + channel[0][count..] == buffer + channel[0];
  }

  lemma TakeWhole(buffer: Bytes, channel: seq<Bytes>, count: nat, more: seq<Bytes>)
    requires CanTake(channel, count, true)
    ensures var all := InFlight(buffer, channel) + more;
            && all[0] == buffer + channel[0][..count]
            && all[1..] == InFlight([], Untaken(channel, count, true)) + more
  {
    assert channel[0][..count] == channel[0];
    if channel[1..] != [] { assert [] + channel[1] == channel[1]; }
  }

  lemma Queue(buffer: Bytes, channel: seq<Bytes>, queue: seq<Bytes>)
    requires queue != [] && (channel == [] ==> buffer == [])
    ensures InFlight(buffer, channel + [queue[0]]) + queue[1..] == InFlight(buffer, channel) + queue
  {
    assert [queue[0]] + queue[1..] == queue;
    if channel == [] { assert buffer + queue[0] == queue[0]; }
  }
}
