/**
 The service side of the exchange as a state machine: `server_handler` with one step
 per callback, and what holds in every run of it.

 A promise's shared state is an entry of `promises`; the future that `perform` returns is its
 index.  `sent` is what was handed to the socket and `armed` says that a writable callback is due.
 The steps stand for the socket library's callbacks, in any order it may make them.
 */
module Service {
  import opened Bytes
  import opened Codec
  import opened Message
  import opened Remote

  type Conn = nat
  type Ticket = nat

  datatype Promise = Waiting | Rejected | Fulfilled(message: Bytes) | Dropped

  /** The command-line settings, and the authenticator program as a predicate on tokens. */
  datatype Settings = Settings(authenticator: string, authHeader: string, accepts: Bytes -> bool)

  datatype State = State(
    connection: Option<Conn>,
    id: u32,
    shutdown: bool,
    authenticated: bool,
    buffer: Bytes,
    requests: seq<Bytes>,
    pending: map<u32, Ticket>,
    promises: seq<Promise>,
    sent: seq<Bytes>,
    armed: bool)

  const START := State(None, 0, false, false, [], [], map[], [], [], false)

  datatype Step =
    | Filter(token: Bytes)
    | Established(conn: Conn)
    | Receive(fragment: Bytes, final: bool)
    | Writable
    | Closed(conn: Conn)
    | Poll
    | Perform(message: Bytes)

  /** A step the environment can make: every request has a header, and a writable callback has to be asked for. */
  predicate Enabled(s: State, step: Step) {
    match step
    case Perform(message) => |message| >= 5
    case Writable => s.connection.Some? && s.armed
    case _ => true
  }

  const GETCREDS: u8 := 0x17
  const GETCREDS_RESPONSE: u8 := 0x97

  /** `next_id`: 32-bit increment that skips 0. */
  function NextId(id: u32): u32 {
    if id == TWO32 - 1 then 1 else id + 1
  }

  /** `authenticate_via_header` on the token of the header, which is empty when the header is absent. */
  function AfterFilter(env: Settings, s: State, token: Bytes): State {
    s.(authenticated :=
         if env.authenticator == "" then true
         else if env.authHeader == "" then false
         else if token == [] then false
         else env.accepts(token))
  }

  function AfterEstablished(env: Settings, s: State, conn: Conn): State {
    if s.connection.Some? then s
    else if !s.authenticated && env.authenticator != "" then
      s.(connection := Some(conn), id := NextId(0), armed := true,
         requests := s.requests + [MessageOf(NextId(0), GETCREDS, [])])
    else s.(connection := Some(conn), id := 0)
  }

  /** `finish_authentication` on the body of a credentials response. */
  function AfterCredentials(env: Settings, s: State, body: Bytes): State {
    match DecodeData(body)
    case Throw => s
    case Ok((token, _)) =>
      if env.accepts(token) then s.(authenticated := true) else s.(shutdown := true, armed := true)
  }

  /** What `on_receive` does with a complete message; a pending ticket is always one that was handed out. */
  function AfterMessage(env: Settings, s: State, m: Bytes): State {
    if |m| < 5 then s
    else if m[4] == GETCREDS_RESPONSE then AfterCredentials(env, s, m[5..])
    else if IdOf(m) in s.pending && s.pending[IdOf(m)] < |s.promises| then
      s.(promises := s.promises[s.pending[IdOf(m)] := Fulfilled(m)], pending := s.pending - {IdOf(m)})
    else s
  }

  function AfterReceive(env: Settings, s: State, fragment: Bytes, final: bool): State {
    if final then AfterMessage(env, s.(buffer := []), s.buffer + fragment)
    else s.(buffer := s.buffer + fragment)
  }

  function AfterWritable(s: State): State {
    if s.shutdown || s.requests == [] then s.(armed := false)
    else s.(sent := s.sent + [s.requests[0]], requests := s.requests[1..], armed := |s.requests| > 1)
  }

  function AfterClosed(s: State, conn: Conn): State {
    if s.connection == Some(conn) then
      s.(connection := None, authenticated := false, shutdown := false, armed := false)
    else s
  }

  /** Destroying promises leaves their futures broken. */
  function Drop(promises: seq<Promise>, tickets: set<Ticket>): seq<Promise> {
    seq(|promises|, t requires 0 <= t < |promises| => if t in tickets then Dropped else promises[t])
  }

  function AfterPoll(s: State): State {
    if s.requests == [] then s
    else if s.connection.Some? then s.(armed := true)
    else s.(requests := [], pending := map[], promises := Drop(s.promises, s.pending.Values))
  }

  function AfterPerform(s: State, message: Bytes): State
    requires |message| >= 5
  {
    if !s.authenticated then s.(promises := s.promises + [Rejected])
    else
      var id := NextId(s.id);
      var s1 := s.(id := id, requests := s.requests + [WithId(message, id)]);
      // `emplace` keeps the older promise when the key is taken
      if id in s.pending then s1.(promises := s.promises + [Dropped])
      else s1.(promises := s.promises + [Waiting], pending := s.pending[id := |s.promises|])
  }

  function Apply(env: Settings, s: State, step: Step): State
    requires Enabled(s, step)
  {
    match step
    case Filter(token) => AfterFilter(env, s, token)
    case Established(conn) => AfterEstablished(env, s, conn)
    case Receive(fragment, final) => AfterReceive(env, s, fragment, final)
    case Writable => AfterWritable(s)
    case Closed(conn) => AfterClosed(s, conn)
    case Poll => AfterPoll(s)
    case Perform(message) => AfterPerform(s, message)
  }

  /** Every step can be made in the state the ones before it lead to. */
  predicate CanRun(env: Settings, s: State, steps: seq<Step>)
    decreases |steps|
  {
    steps == [] || (Enabled(s, steps[0]) && CanRun(env, Apply(env, s, steps[0]), steps[1..]))
  }

  function Run(env: Settings, s: State, steps: seq<Step>): State
    requires CanRun(env, s, steps)
    decreases |steps|
  {
    if steps == [] then s else Run(env, Apply(env, s, steps[0]), steps[1..])
  }

  // ----- Tickets -----

  /**
   A promise is waiting exactly when it is pending, under exactly one key, which is not 0; every other promise
   is rejected, fulfilled or dropped and pending nowhere.
   */
  ghost predicate Tickets(s: State) {
    && (forall k | k in s.pending :: k != 0 && s.pending[k] < |s.promises| && s.promises[s.pending[k]].Waiting?)
    && (forall k, l | k in s.pending && l in s.pending && s.pending[k] == s.pending[l] :: k == l)
    && (forall t | 0 <= t < |s.promises| && s.promises[t].Waiting? :: t in s.pending.Values)
  }

  lemma DeliveryKeepsTickets(s: State, id: u32, m: Bytes)
    requires Tickets(s) && id in s.pending
    ensures s.pending[id] < |s.promises|
    ensures Tickets(s.(promises := s.promises[s.pending[id] := Fulfilled(m)], pending := s.pending - {id}))
  {
    var t := s.pending[id];
    var s' := s.(promises := s.promises[t := Fulfilled(m)], pending := s.pending - {id});
    forall u | 0 <= u < |s'.promises| && s'.promises[u].Waiting? ensures u in s'.pending.Values {
      var k :| k in s.pending && s.pending[k] == u;
      assert k != id && s'.pending[k] == u;
    }
  }

  lemma SameTickets(s: State, s': State)
    requires Tickets(s) && s'.pending == s.pending && s'.promises == s.promises
    ensures Tickets(s')
  {
  }

  lemma SettledTicket(s: State, p: Promise, s': State)
    requires Tickets(s) && !p.Waiting? && s'.pending == s.pending && s'.promises == s.promises + [p]
    ensures Tickets(s')
  {
  }

  lemma WaitingTicket(s: State, id: u32, s': State)
    requires Tickets(s) && id !in s.pending && id != 0
    requires s'.pending == s.pending[id := |s.promises|] && s'.promises == s.promises + [Waiting]
    ensures Tickets(s')
  {
    forall u | 0 <= u < |s'.promises| && s'.promises[u].Waiting? ensures u in s'.pending.Values {
      if u < |s.promises| {
        var k :| k in s.pending && s.pending[k] == u;
        assert k in s'.pending && s'.pending[k] == u;
      } else {
        assert s'.pending[id] == u;
      }
    }
  }

  lemma PollKeepsTickets(s: State)
    requires Tickets(s)
    ensures Tickets(AfterPoll(s))
  {
    if s.requests == [] || s.connection.Some? {
      SameTickets(s, AfterPoll(s));
    } else {
      forall t | 0 <= t < |s.promises| ensures !AfterPoll(s).promises[t].Waiting? {
        assert s.promises[t].Waiting? ==> t in s.pending.Values;
      }
    }
  }

  lemma NextIdPositive(id: u32)
    ensures NextId(id) != 0
  {
  }

  lemma StepKeepsTickets(env: Settings, s: State, step: Step)
    requires Tickets(s) && Enabled(s, step)
    ensures Tickets(Apply(env, s, step))
  {
    hide WithId, MessageOf, DecodeData, IdOf, AfterPoll, NextId, Tickets;
    var s' := Apply(env, s, step);
    match step
    case Receive(fragment, final) =>
      var m := s.buffer + fragment;
      if final && |m| >= 5 && m[4] != GETCREDS_RESPONSE && IdOf(m) in s.pending {
        SameTickets(s, s.(buffer := []));
        DeliveryKeepsTickets(s.(buffer := []), IdOf(m), m);
      } else {
        SameTickets(s, s');
      }
    case Perform(message) =>
      if !s.authenticated {
        SettledTicket(s, Rejected, s');
      } else if NextId(s.id) in s.pending {
        SettledTicket(s, Dropped, s');
      } else {
        NextIdPositive(s.id);
        WaitingTicket(s, NextId(s.id), s');
      }
    case Poll => PollKeepsTickets(s);
    case _ => SameTickets(s, s');
  }

  /** In every run, each future handed out is in exactly one of its four states. */
  lemma {:induction false} TicketConservation(env: Settings, s: State, steps: seq<Step>)
    requires Tickets(s) && CanRun(env, s, steps)
    ensures Tickets(Run(env, s, steps))
    decreases |steps|
  {
    if steps != [] {
      hide Tickets;
      StepKeepsTickets(env, s, steps[0]);
      TicketConservation(env, Apply(env, s, steps[0]), steps[1..]);
    }
  }

  /** This holds of every reachable state, across any number of connections. */
  lemma ReachableTickets(env: Settings, steps: seq<Step>)
    requires CanRun(env, START, steps)
    ensures Tickets(Run(env, START, steps))
  {
    TicketConservation(env, START, steps);
  }

  lemma StepSettles(env: Settings, s: State, step: Step, t: Ticket)
    requires Tickets(s) && Enabled(s, step) && t < |s.promises|
    ensures var s' := Apply(env, s, step);
            && |s'.promises| == |s.promises| + (if step.Perform? then 1 else 0)
            && (!s.promises[t].Waiting? ==> s'.promises[t] == s.promises[t])
  {
    hide WithId, MessageOf, DecodeData, IdOf;
  }

  /** What one step makes of an open future: only its own response completes it, and only a clearing poll breaks it. */
  lemma SettledBy(env: Settings, s: State, step: Step, t: Ticket)
    requires Tickets(s) && Enabled(s, step) && t < |s.promises| && s.promises[t].Waiting?
    ensures var p := Apply(env, s, step).promises[t];
            var m := if step.Receive? then s.buffer + step.fragment else [];
            if step.Receive? && step.final && |m| >= 5 && m[4] != 0x97
               && IdOf(m) in s.pending && s.pending[IdOf(m)] == t
            then p == Fulfilled(m)
            else if step.Poll? && s.requests != [] && s.connection.None? then p == Dropped
            else p == Waiting
  {
    hide WithId, MessageOf, DecodeData, IdOf;
  }

  /**
   Once a future has its answer, no run changes it again, so no promise is completed twice; and a run
   hands out one future per `perform`.
   */
  lemma {:induction false} SettledForGood(env: Settings, s: State, steps: seq<Step>, t: Ticket)
    requires Tickets(s) && CanRun(env, s, steps) && t < |s.promises|
    ensures var s' := Run(env, s, steps);
            && |s'.promises| == |s.promises| + |Performs(steps)|
            && (!s.promises[t].Waiting? ==> s'.promises[t] == s.promises[t])
    decreases |steps|
  {
    if steps != [] {
      hide Tickets, Apply;
      StepKeepsTickets(env, s, steps[0]);
      StepSettles(env, s, steps[0], t);
      SettledForGood(env, Apply(env, s, steps[0]), steps[1..], t);
    }
  }

  function Performs(steps: seq<Step>): seq<Step> {
    if steps == [] then []
    else (if steps[0].Perform? then [steps[0]] else []) + Performs(steps[1..])
  }

  // ----- Identifiers -----

  /** The identifier after `k` calls of `next_id` on a fresh connection. */
  function NthId(k: nat): u32 {
    if k == 0 then 0 else NextId(NthId(k - 1))
  }

  lemma {:induction false} NthIdValue(k: nat)
    requires k > 0
    ensures NthId(k) == (k - 1) % (TWO32 - 1) + 1
  {
    if k > 1 {
      NthIdValue(k - 1);
      var q, r := (k - 2) / (TWO32 - 1), (k - 2) % (TWO32 - 1);
      assert k - 1 == q * (TWO32 - 1) + r + 1;
      if r == TWO32 - 2 { assert k - 1 == (q + 1) * (TWO32 - 1); }
    }
  }

  /** Identifiers are never 0 and repeat exactly every 2^32 - 1 calls. */
  lemma NthIdRepeats(i: nat, j: nat)
    requires 0 < i <= j
    ensures NthId(i) != 0
    ensures NthId(i) == NthId(j) <==> (j - i) % (TWO32 - 1) == 0
  {
    NthIdValue(i);
    NthIdValue(j);
    SameRemainder(i - 1, j - 1);
  }

  lemma SameRemainder(a: nat, b: nat)
    requires a <= b
    ensures a % (TWO32 - 1) == b % (TWO32 - 1) <==> (b - a) % (TWO32 - 1) == 0
  {
    var m := TWO32 - 1;
    assert a == a / m * m + a % m && b == b / m * m + b % m;
    if a % m == b % m {
      assert b - a == (b / m - a / m) * m;
    }
    if (b - a) % m == 0 {
      var q := (b - a) / m;
      assert b == (a / m + q) * m + a % m;
    }
  }

  // ----- Queue order -----

  /** What a step appends to the queue. */
  function EnqueuedBy(env: Settings, s: State, step: Step): seq<Bytes>
    requires Enabled(s, step)
  {
    match step
    case Established(_) =>
      if s.connection.None? && !s.authenticated && env.authenticator != ""
      then [MessageOf(NextId(0), GETCREDS, [])] else []
    case Perform(message) => if s.authenticated then [WithId(message, NextId(s.id))] else []
    case _ => []
  }

  function Enqueued(env: Settings, s: State, steps: seq<Step>): seq<Bytes>
    requires CanRun(env, s, steps)
    decreases |steps|
  {
    if steps == [] then []
    else EnqueuedBy(env, s, steps[0]) + Enqueued(env, Apply(env, s, steps[0]), steps[1..])
  }

  predicate Clears(s: State, step: Step) {
    step.Poll? && s.connection.None?
  }

  predicate NeverClears(env: Settings, s: State, steps: seq<Step>)
    requires CanRun(env, s, steps)
    decreases |steps|
  {
    steps == [] || (!Clears(s, steps[0]) && NeverClears(env, Apply(env, s, steps[0]), steps[1..]))
  }

  lemma StepFifo(env: Settings, s: State, step: Step)
    requires Enabled(s, step) && !Clears(s, step)
    ensures var s' := Apply(env, s, step);
            && s'.sent + s'.requests == s.sent + s.requests + EnqueuedBy(env, s, step)
            && s.sent <= s'.sent
  {
    hide WithId, MessageOf, DecodeData, IdOf;
  }

  /** Between two clears, what was written followed by the queue is what was enqueued, in order. */
  lemma {:induction false} Fifo(env: Settings, s: State, steps: seq<Step>)
    requires CanRun(env, s, steps) && NeverClears(env, s, steps)
    ensures var s' := Run(env, s, steps);
            && s'.sent + s'.requests == s.sent + s.requests + Enqueued(env, s, steps)
            && s.sent <= s'.sent
    decreases |steps|
  {
    if steps != [] {
      hide Apply, EnqueuedBy, Enabled, Clears;
      StepFifo(env, s, steps[0]);
      var s1 := Apply(env, s, steps[0]);
      Fifo(env, s1, steps[1..]);
      Regroup(s.sent + s.requests, EnqueuedBy(env, s, steps[0]), Enqueued(env, s1, steps[1..]));
    }
  }

  lemma Regroup(a: seq<Bytes>, b: seq<Bytes>, c: seq<Bytes>)
    ensures a + b + c == a + (b + c)
  {
  }

  function Writables(n: nat): seq<Step> {
    seq(n, i => Writable)
  }

  /** `n` writable callbacks write the first `n` requests; one more is due exactly while requests remain. */
  lemma {:induction false} Drain(env: Settings, s: State, n: nat)
    requires s.connection.Some? && !s.shutdown && n <= |s.requests|
    requires s.armed == (s.requests != [])
    ensures CanRun(env, s, Writables(n))
    ensures Run(env, s, Writables(n))
            == s.(sent := s.sent + s.requests[..n], requests := s.requests[n..], armed := n < |s.requests|)
    decreases n
  {
    if n == 0 {
      assert s.requests[0..] == s.requests && s.sent + s.requests[..0] == s.sent;
    } else {
      var s1 := AfterWritable(s);
      assert Writables(n)[1..] == Writables(n - 1);
      Drain(env, s1, n - 1);
      assert s1.sent + s1.requests[..n - 1] == s.sent + s.requests[..n];
      assert s1.requests[n - 1..] == s.requests[n..];
    }
  }

  /** After a poll of a connected service, `n` callbacks without new requests empty a queue of `n`. */
  lemma PollThenDrain(env: Settings, s: State)
    requires s.connection.Some? && !s.shutdown && s.requests != []
    ensures var n := |s.requests|;
            && CanRun(env, s, [Poll] + Writables(n))
            && Run(env, s, [Poll] + Writables(n))
               == s.(sent := s.sent + s.requests, requests := [], armed := false)
  {
    var n := |s.requests|;
    assert ([Poll] + Writables(n))[1..] == Writables(n);
    Drain(env, AfterPoll(s), n);
    assert s.requests[..n] == s.requests && s.requests[n..] == [];
  }

  // ----- Authentication -----

  /** The step completes a credentials response whose token is accepted. */
  predicate Accepting(env: Settings, s: State, step: Step) {
    step.Receive? && step.final &&
    var m := s.buffer + step.fragment;
    |m| >= 5 && m[4] == GETCREDS_RESPONSE && DecodeData(m[5..]).Ok? && env.accepts(DecodeData(m[5..]).value.0)
  }

  /** The step completes a credentials response whose token is refused. */
  predicate Refusing(env: Settings, s: State, step: Step) {
    step.Receive? && step.final &&
    var m := s.buffer + step.fragment;
    |m| >= 5 && m[4] == GETCREDS_RESPONSE && DecodeData(m[5..]).Ok? && !env.accepts(DecodeData(m[5..]).value.0)
  }

  predicate NeverAccepts(env: Settings, s: State, steps: seq<Step>)
    requires CanRun(env, s, steps)
    decreases |steps|
  {
    steps == [] || (!Accepting(env, s, steps[0]) && NeverAccepts(env, Apply(env, s, steps[0]), steps[1..]))
  }

  /** A handshake with this header token leaves the service authenticated. */
  predicate Admits(env: Settings, token: Bytes) {
    env.authenticator == "" || (env.authHeader != "" && token != [] && env.accepts(token))
  }

  /** The step opens the service to requests: any client's handshake, or accepted credentials. */
  predicate Grants(env: Settings, s: State, step: Step) {
    (step.Filter? && Admits(env, step.token)) || Accepting(env, s, step)
  }

  /** The step closes the service to requests: a handshake without an accepted token, or the end of the connection. */
  predicate Revokes(env: Settings, s: State, step: Step) {
    (step.Filter? && !Admits(env, step.token)) || (step.Closed? && s.connection == Some(step.conn))
  }

  // The three flags of the service, each with the steps that raise and lower it.

  datatype Flag = Authenticated | Shutdown | Due

  predicate Up(flag: Flag, s: State) {
    match flag
    case Authenticated => s.authenticated
    case Shutdown => s.shutdown
    case Due => s.armed
  }

  /**
   A refusal raises the shutdown flag.  A writable callback becomes due with the credentials request, with a poll that
   finds something to write, with a refusal, and with a write that leaves more behind.
   */
  predicate Raises(env: Settings, flag: Flag, s: State, step: Step) {
    match flag
    case Authenticated => Grants(env, s, step)
    case Shutdown => Refusing(env, s, step)
    case Due =>
      || Refusing(env, s, step)
      || (step.Established? && s.connection.None? && !s.authenticated && env.authenticator != "")
      || (step.Poll? && s.connection.Some? && s.requests != [])
      || (step.Writable? && !s.shutdown && |s.requests| > 1)
  }

  predicate Lowers(env: Settings, flag: Flag, s: State, step: Step) {
    match flag
    case Authenticated => Revokes(env, s, step)
    case Shutdown => step.Closed? && s.connection == Some(step.conn)
    case Due => (step.Closed? && s.connection == Some(step.conn)) || (step.Writable? && !Raises(env, Due, s, step))
  }

  predicate NeverRaised(env: Settings, flag: Flag, s: State, steps: seq<Step>)
    requires CanRun(env, s, steps)
    decreases |steps|
  {
    steps == [] || (!Raises(env, flag, s, steps[0]) && NeverRaised(env, flag, Apply(env, s, steps[0]), steps[1..]))
  }

  predicate NeverLowered(env: Settings, flag: Flag, s: State, steps: seq<Step>)
    requires CanRun(env, s, steps)
    decreases |steps|
  {
    steps == [] || (!Lowers(env, flag, s, steps[0]) && NeverLowered(env, flag, Apply(env, s, steps[0]), steps[1..]))
  }

  /** Some step of the run raises the flag, and none after it lowers it. */
  predicate RaisedLast(env: Settings, flag: Flag, s: State, steps: seq<Step>)
    requires CanRun(env, s, steps)
    decreases |steps|
  {
    steps != [] &&
    var s1 := Apply(env, s, steps[0]);
    RaisedLast(env, flag, s1, steps[1..]) || (Raises(env, flag, s, steps[0]) && NeverLowered(env, flag, s1, steps[1..]))
  }

  lemma StepDecides(env: Settings, flag: Flag, s: State, step: Step)
    requires Enabled(s, step)
    ensures Up(flag, Apply(env, s, step))
            <==> Raises(env, flag, s, step) || (Up(flag, s) && !Lowers(env, flag, s, step))
  {
    hide WithId, MessageOf, DecodeData, IdOf;
  }

  /**
   After any run, across any connections, a flag is up exactly when the last step that decides about it raises it, or no
   step lowers what was up before.
   */
  lemma {:induction false} FlagIff(env: Settings, flag: Flag, s: State, steps: seq<Step>)
    requires CanRun(env, s, steps)
    ensures Up(flag, Run(env, s, steps))
            <==> RaisedLast(env, flag, s, steps) || (Up(flag, s) && NeverLowered(env, flag, s, steps))
    decreases |steps|
  {
    if steps != [] {
      hide Apply, Raises, Lowers, Up;
      StepDecides(env, flag, s, steps[0]);
      FlagIff(env, flag, Apply(env, s, steps[0]), steps[1..]);
    }
  }

  lemma {:induction false} NeverRaisedLast(env: Settings, flag: Flag, s: State, steps: seq<Step>)
    requires CanRun(env, s, steps) && NeverRaised(env, flag, s, steps)
    ensures !RaisedLast(env, flag, s, steps)
    decreases |steps|
  {
    if steps != [] {
      hide Apply, Raises, Lowers;
      NeverRaisedLast(env, flag, Apply(env, s, steps[0]), steps[1..]);
    }
  }

  /**
   The service is authenticated exactly when the last step of the run that decides about it grants it, or no step
   revokes what was there before.
   */
  lemma AuthenticatedIff(env: Settings, s: State, steps: seq<Step>)
    requires CanRun(env, s, steps)
    ensures Run(env, s, steps).authenticated
            <==> RaisedLast(env, Authenticated, s, steps)
                 || (s.authenticated && NeverLowered(env, Authenticated, s, steps))
  {
    FlagIff(env, Authenticated, s, steps);
  }

  /** A service that starts unauthenticated stays so while no header token and no credentials are accepted. */
  lemma StaysUnauthenticated(env: Settings, s: State, steps: seq<Step>)
    requires CanRun(env, s, steps) && !s.authenticated && NeverRaised(env, Authenticated, s, steps)
    ensures !Run(env, s, steps).authenticated
  {
    AuthenticatedIff(env, s, steps);
    NeverRaisedLast(env, Authenticated, s, steps);
  }

  lemma StepLeavesDue(env: Settings, s: State, c: Conn, step: Step)
    requires Enabled(s, step) && s.connection == Some(c) && step != Closed(c) && step != Writable
    ensures Apply(env, s, step).connection == Some(c) && !Lowers(env, Due, s, step)
  {
    hide WithId, MessageOf, DecodeData, IdOf;
  }

  /** On a connection a callback that is due stays due until it is made or the connection is closed. */
  lemma {:induction false} StaysDue(env: Settings, s: State, c: Conn, steps: seq<Step>)
    requires CanRun(env, s, steps) && s.connection == Some(c) && s.armed
    requires Closed(c) !in steps && Writable !in steps
    ensures Run(env, s, steps).armed && Run(env, s, steps).connection == Some(c)
    decreases |steps|
  {
    if steps != [] {
      hide Apply, Raises, Lowers;
      StepLeavesDue(env, s, c, steps[0]);
      StepDecides(env, Due, s, steps[0]);
      StaysDue(env, Apply(env, s, steps[0]), c, steps[1..]);
    }
  }

  lemma StepOnConnection(env: Settings, s: State, c: Conn, step: Step)
    requires Enabled(s, step) && s.connection == Some(c) && step != Closed(c)
    ensures Apply(env, s, step).connection == Some(c) && !Clears(s, step)
    ensures !s.authenticated ==> EnqueuedBy(env, s, step) == []
  {
    hide WithId, MessageOf, DecodeData, IdOf;
  }

  lemma {:induction false} ConnectedRun(env: Settings, s: State, c: Conn, steps: seq<Step>)
    requires CanRun(env, s, steps) && s.connection == Some(c) && Closed(c) !in steps
    ensures NeverClears(env, s, steps) && Run(env, s, steps).connection == Some(c)
    ensures !s.authenticated && NeverRaised(env, Authenticated, s, steps) ==> Enqueued(env, s, steps) == []
    decreases |steps|
  {
    if steps != [] {
      hide Apply, EnqueuedBy, Raises, Lowers, Clears;
      StepOnConnection(env, s, c, steps[0]);
      StepDecides(env, Authenticated, s, steps[0]);
      ConnectedRun(env, Apply(env, s, steps[0]), c, steps[1..]);
    }
  }

  /**
   With authentication configured, a connection that is established unauthenticated gets the credentials request as its
   first message, whatever happens until it is closed; a writable callback is due until it is made; and nothing else is
   enqueued before credentials are accepted or some client's handshake brings an accepted token.
   */
  lemma CredentialsFirst(env: Settings, s: State, c: Conn, steps: seq<Step>)
    requires env.authenticator != "" && !s.authenticated && s.connection.None? && s.requests == []
    requires CanRun(env, AfterEstablished(env, s, c), steps) && Closed(c) !in steps
    ensures var s1 := AfterEstablished(env, s, c);
            var s' := Run(env, s1, steps);
            var first := s.sent + [MessageOf(1, GETCREDS, [])];
            && s.sent <= s'.sent && first <= s'.sent + s'.requests
            && (NeverRaised(env, Authenticated, s1, steps) ==> !s'.authenticated && s'.sent + s'.requests == first)
            && (Writable !in steps ==> s'.armed)
  {
    hide Apply, MessageOf, Raises, Lowers;
    var s1 := AfterEstablished(env, s, c);
    ConnectedRun(env, s1, c, steps);
    Fifo(env, s1, steps);
    assert s1.sent + s1.requests == s.sent + [MessageOf(1, GETCREDS, [])];
    if NeverRaised(env, Authenticated, s1, steps) { StaysUnauthenticated(env, s1, steps); }
    if Writable !in steps { StaysDue(env, s1, c, steps); }
  }

  /**
   A client without a token asks for nothing but the connection, and another client with an accepted token makes its
   handshake meanwhile: the flag is shared, so a request is enqueued for the first client, whose credentials nobody has
   seen.
   */
  lemma OtherClientOpensTheGate(env: Settings, s: State, c: Conn, token: Bytes, request: Bytes)
    requires env.authenticator != "" && Admits(env, token) && |request| >= 5
    requires s.connection.None? && s.requests == []
    ensures var s1 := AfterEstablished(env, AfterFilter(env, s, []), c);
            var steps := [Filter(token), Perform(request)];
            && CanRun(env, s1, steps) && NeverAccepts(env, s1, steps)
            && Run(env, s1, steps).requests == [MessageOf(1, GETCREDS, []), WithId(request, 2)]
  {
    hide MessageOf, WithId;
    var s1 := AfterEstablished(env, AfterFilter(env, s, []), c);
    var steps := [Filter(token), Perform(request)];
    var s2 := Apply(env, s1, Filter(token));
    var s3 := Apply(env, s2, Perform(request));
    assert steps[1..] == [Perform(request)] && [Perform(request)][1..] == [];
    assert s3.requests == [MessageOf(1, GETCREDS, []), WithId(request, 2)];
    assert CanRun(env, s3, []) && NeverAccepts(env, s3, []) && Run(env, s3, []) == s3;
    assert CanRun(env, s2, [Perform(request)]) && NeverAccepts(env, s2, [Perform(request)]);
    assert Run(env, s2, [Perform(request)]) == s3;
  }

  // ----- Rejection -----

  lemma StepRejects(env: Settings, s: State, c: Conn, step: Step)
    requires Enabled(s, step) && s.connection == Some(c) && step != Closed(c)
    ensures var s' := Apply(env, s, step);
            && s'.connection == Some(c) && (s'.shutdown <==> s.shutdown || Refusing(env, s, step))
            && (s.shutdown || Refusing(env, s, step) ==> s'.sent == s.sent)
  {
    hide WithId, MessageOf, DecodeData, IdOf;
  }

  lemma {:induction false} NothingWritten(env: Settings, s: State, c: Conn, steps: seq<Step>)
    requires CanRun(env, s, steps) && s.connection == Some(c) && s.shutdown && Closed(c) !in steps
    ensures var s' := Run(env, s, steps); s'.connection == Some(c) && s'.shutdown && s'.sent == s.sent
    decreases |steps|
  {
    if steps != [] {
      hide Apply, Refusing;
      StepRejects(env, s, c, steps[0]);
      NothingWritten(env, Apply(env, s, steps[0]), c, steps[1..]);
    }
  }

  /**
   Once credentials are refused nothing is written until the connection is closed, whatever else happens; and a writable
   callback, which closes it, is due until it is made.
   */
  lemma RejectionIsFinal(env: Settings, s: State, c: Conn, refusal: Step, steps: seq<Step>)
    requires s.connection == Some(c) && Enabled(s, refusal) && Refusing(env, s, refusal)
    requires CanRun(env, Apply(env, s, refusal), steps) && Closed(c) !in steps
    ensures var s' := Run(env, Apply(env, s, refusal), steps);
            && s'.connection == Some(c) && s'.shutdown && s'.sent == s.sent
            && (Writable !in steps ==> s'.armed)
  {
    assert refusal.Receive? && Up(Due, Apply(env, s, refusal)) by { StepDecides(env, Due, s, refusal); }
    hide Apply, Refusing;
    StepRejects(env, s, c, refusal);
    NothingWritten(env, Apply(env, s, refusal), c, steps);
    if Writable !in steps { StaysDue(env, Apply(env, s, refusal), c, steps); }
  }

  /**
   In every run from the start, across any connections, the next writable callback closes the connection exactly when
   some credentials were refused and the connection has not been closed since.
   */
  lemma ShutdownIff(env: Settings, steps: seq<Step>)
    requires CanRun(env, START, steps)
    ensures Run(env, START, steps).shutdown <==> RaisedLast(env, Shutdown, START, steps)
  {
    FlagIff(env, Shutdown, START, steps);
  }

  lemma {:induction false} NoCloseNoReset(env: Settings, s: State, c: Conn, steps: seq<Step>)
    requires CanRun(env, s, steps) && s.connection == Some(c) && Closed(c) !in steps
    ensures NeverLowered(env, Shutdown, s, steps)
    ensures RaisedLast(env, Shutdown, s, steps) <==> !NeverRaised(env, Shutdown, s, steps)
    decreases |steps|
  {
    if steps != [] {
      assert steps[0] in steps && !Lowers(env, Shutdown, s, steps[0]);
      hide Apply, Raises, Lowers;
      StepRejects(env, s, c, steps[0]);
      NoCloseNoReset(env, Apply(env, s, steps[0]), c, steps[1..]);
    }
  }

  /** On one connection that is exactly when some credentials were refused. */
  lemma RejectedIffRefused(env: Settings, s: State, c: Conn, steps: seq<Step>)
    requires CanRun(env, s, steps) && s.connection == Some(c) && !s.shutdown && Closed(c) !in steps
    ensures Run(env, s, steps).shutdown <==> !NeverRaised(env, Shutdown, s, steps)
  {
    FlagIff(env, Shutdown, s, steps);
    NoCloseNoReset(env, s, c, steps);
  }

  lemma RunOne(env: Settings, s: State, step: Step, later: seq<Step>)
    requires Enabled(s, step) && CanRun(env, Apply(env, s, step), later)
    ensures CanRun(env, s, [step] + later)
    ensures Run(env, s, [step] + later) == Run(env, Apply(env, s, step), later)
  {
    hide Apply, Enabled;
    assert ([step] + later)[1..] == later;
  }

  /** The connection ends, the service polls, and the next client comes with an accepted token. */
  function NextClient(c: Conn, token: Bytes, d: Conn, later: seq<Step>): seq<Step> {
    [Closed(c)] + ([Poll] + ([Filter(token)] + ([Established(d)] + later)))
  }

  /** The service as the next client finds it. */
  function Entered(s: State, c: Conn, d: Conn): State {
    AfterPoll(AfterClosed(s, c)).(authenticated := true, connection := Some(d), id := 0)
  }

  lemma NextClientEnters(env: Settings, s: State, c: Conn, token: Bytes, d: Conn, later: seq<Step>)
    requires s.connection == Some(c) && Admits(env, token) && CanRun(env, Entered(s, c, d), later)
    ensures CanRun(env, s, NextClient(c, token, d, later))
    ensures Run(env, s, NextClient(c, token, d, later)) == Run(env, Entered(s, c, d), later)
  {
    hide MessageOf, CanRun, Run;
    var s1 := AfterClosed(s, c);
    var s2 := AfterPoll(s1);
    var s3 := AfterFilter(env, s2, token);
    assert AfterEstablished(env, s3, d) == Entered(s, c, d);
    RunOne(env, s3, Established(d), later);
    RunOne(env, s2, Filter(token), [Established(d)] + later);
    RunOne(env, s1, Poll, [Filter(token)] + ([Established(d)] + later));
    RunOne(env, s, Closed(c), [Poll] + ([Filter(token)] + ([Established(d)] + later)));
  }

  /** An authenticated service with an empty queue writes a request made now at the next poll. */
  lemma FirstRequest(env: Settings, s: State, request: Bytes)
    requires s.connection.Some? && s.authenticated && !s.shutdown && s.requests == [] && |request| >= 5
    ensures var steps := [Perform(request)] + ([Poll] + ([Writable] + []));
            && CanRun(env, s, steps)
            && var s' := Run(env, s, steps);
               && s'.connection == s.connection && !s'.shutdown && s'.requests == []
               && s'.sent == s.sent + [WithId(request, NextId(s.id))]
  {
    hide WithId, NextId;
    var s1 := AfterPerform(s, request);
    var s2 := AfterPoll(s1);
    var s3 := AfterWritable(s2);
    assert CanRun(env, s3, []) && Run(env, s3, []) == s3;
    hide CanRun, Run;
    RunOne(env, s2, Writable, []);
    RunOne(env, s1, Poll, [Writable] + []);
    RunOne(env, s, Perform(request), [Poll] + ([Writable] + []));
  }

  /** Whatever happened on a connection, rejection included, the next client's first request is written. */
  lemma NextClientIsServed(env: Settings, s: State, c: Conn, token: Bytes, d: Conn, request: Bytes)
    requires s.connection == Some(c) && Admits(env, token) && |request| >= 5
    ensures var steps := NextClient(c, token, d, [Perform(request)] + ([Poll] + ([Writable] + [])));
            && CanRun(env, s, steps)
            && var s' := Run(env, s, steps);
               && s'.connection == Some(d) && !s'.shutdown && s'.requests == []
               && s'.sent == s.sent + [WithId(request, 1)]
  {
    hide WithId, CanRun, Run, NextClient;
    FirstRequest(env, Entered(s, c, d), request);
    NextClientEnters(env, s, c, token, d, [Perform(request)] + ([Poll] + ([Writable] + [])));
  }

  /** A poll without a connection and with a queue breaks every open future and leaves the others alone. */
  lemma PollBreaksOpenFutures(s: State)
    requires Tickets(s) && s.connection.None? && s.requests != []
    ensures var s' := AfterPoll(s);
            && s'.requests == [] && s'.pending == map[] && |s'.promises| == |s.promises|
            && forall t | 0 <= t < |s.promises| ::
                 s'.promises[t] == if s.promises[t].Waiting? then Dropped else s.promises[t]
  {
  }
}
