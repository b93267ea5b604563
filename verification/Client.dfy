/**
 The provider's side of the connection: `webfuse_client_callback` with its fragment
 buffer and its queue of answers, on top of the message handler of module `Provider`.
 */
module Client {
  import opened Bytes
  import opened Calls
  import opened Remote
  import opened Fragments
  import P = Provider

  datatype ClientState<S> = ClientState(
    backend: S, buffer: Bytes, answers: seq<Bytes>, sent: seq<Bytes>, armed: bool)

  function AfterRequest<S(!new)>(fs: Backend<S>, c: ClientState<S>, m: Bytes): ClientState<S>
    requires Honest(fs)
  {
    match Dispatch(fs, c.backend, m)
    case (s', Throw) => c.(backend := s')
    case (s', Ok(a)) => c.(backend := s', answers := c.answers + [a], armed := true)
  }

  function AfterClientReceive<S(!new)>(fs: Backend<S>, c: ClientState<S>, fragment: Bytes, final: bool)
    : ClientState<S>
    requires Honest(fs)
  {
    if final then AfterRequest(fs, c.(buffer := []), c.buffer + fragment)
    else c.(buffer := c.buffer + fragment)
  }

  function AfterClientWritable<S>(c: ClientState<S>): ClientState<S> {
    if c.answers == [] then c.(armed := false)
    else c.(sent := c.sent + [c.answers[0]], answers := c.answers[1..], armed := |c.answers| > 1)
  }

  function AfterDisconnect<S>(c: ClientState<S>): ClientState<S> {
    c.(buffer := [], answers := [], armed := false)
  }

  function AnswerTo<S(!new)>(fs: Backend<S>, s: S, m: Bytes): seq<Bytes>
    requires Honest(fs)
  {
    match Dispatch(fs, s, m).1
    case Throw => []
    case Ok(a) => [a]
  }

  /** Serving a list of messages in order: the backend's state and the answers. */
  function Serve<S(!new)>(fs: Backend<S>, s: S, ms: seq<Bytes>): (S, seq<Bytes>)
    requires Honest(fs)
    decreases |ms|
  {
    if ms == [] then (s, [])
    else
      var (s', later) := Serve(fs, Dispatch(fs, s, ms[0]).0, ms[1..]);
      (s', AnswerTo(fs, s, ms[0]) + later)
  }

  function AfterRequests<S(!new)>(fs: Backend<S>, c: ClientState<S>, ms: seq<Bytes>): ClientState<S>
    requires Honest(fs)
    decreases |ms|
  {
    if ms == [] then c else AfterRequests(fs, AfterRequest(fs, c, ms[0]), ms[1..])
  }

  /** The answer to a request has its identifier, and its type with the top bit set or the bare unknown type. */
  predicate Answers(a: Bytes, m: Bytes) {
    && |m| >= 5 && |a| >= 5 && IdOf(a) == IdOf(m)
    && (if Known(m) then a[4] == m[4] + 0x80 else a == U32Bytes(IdOf(m)) + [0x80])
  }

  /** The backend after a message: only decoded calls run. */
  function AfterRun<S>(fs: Backend<S>, s: S, m: Bytes): S {
    if Known(m) && Decodes(m) then fs(s, ParseRequest(m[4], m[5..]).value).0 else s
  }

  /** The answers belong to the messages that decode and whose handlers do not throw, one each, in order. */
  predicate AnsweredInOrder<S>(fs: Backend<S>, s: S, answers: seq<Bytes>, ms: seq<Bytes>)
    decreases |ms|
  {
    if ms == [] then answers == []
    else if Decodes(ms[0]) && !Throws(fs, s, ms[0]) then
      && answers != [] && Answers(answers[0], ms[0])
      && AnsweredInOrder(fs, AfterRun(fs, s, ms[0]), answers[1..], ms[1..])
    else AnsweredInOrder(fs, AfterRun(fs, s, ms[0]), answers, ms[1..])
  }

  /** Some message decodes and its handler throws. */
  predicate SomeThrows<S>(fs: Backend<S>, s: S, ms: seq<Bytes>)
    decreases |ms|
  {
    ms != [] && ((Decodes(ms[0]) && Throws(fs, s, ms[0])) || SomeThrows(fs, AfterRun(fs, s, ms[0]), ms[1..]))
  }

  function Decodable(ms: seq<Bytes>): nat {
    if ms == [] then 0 else (if Decodes(ms[0]) then 1 else 0) + Decodable(ms[1..])
  }

  lemma OneRequest<S(!new)>(fs: Backend<S>, c: ClientState<S>, m: Bytes)
    requires Honest(fs)
    ensures AfterRequest(fs, c, m).backend == Dispatch(fs, c.backend, m).0
    ensures AfterRequest(fs, c, m).answers == c.answers + AnswerTo(fs, c.backend, m)
  {
    hide Dispatch;
    assert c.answers + [] == c.answers;
  }

  /** Taking up messages one by one serves them. */
  lemma {:induction false} RequestsAreServed<S(!new)>(fs: Backend<S>, c: ClientState<S>, ms: seq<Bytes>)
    requires Honest(fs)
    ensures AfterRequests(fs, c, ms).backend == Serve(fs, c.backend, ms).0
    ensures AfterRequests(fs, c, ms).answers == c.answers + Serve(fs, c.backend, ms).1
    decreases |ms|
  {
    if ms != [] {
      hide Dispatch, Honest, AfterRequest, AnswerTo;
      OneRequest(fs, c, ms[0]);
      RequestsAreServed(fs, AfterRequest(fs, c, ms[0]), ms[1..]);
      var later := Serve(fs, Dispatch(fs, c.backend, ms[0]).0, ms[1..]).1;
      assert c.answers + AnswerTo(fs, c.backend, ms[0]) + later == c.answers + (AnswerTo(fs, c.backend, ms[0]) + later);
    }
  }

  /** Messages are answered in order and at most once each; those that do not decode or throw get no answer. */
  lemma {:induction false} OneAnswerEach<S(!new)>(fs: Backend<S>, s: S, ms: seq<Bytes>)
    requires Honest(fs)
    ensures AnsweredInOrder(fs, s, Serve(fs, s, ms).1, ms)
    decreases |ms|
  {
    if ms != [] {
      hide Dispatch, Decodes, Throws, Answers, Honest, AfterRun;
      Served(fs, s, ms[0]);
      var (s', r) := Dispatch(fs, s, ms[0]);
      OneAnswerEach(fs, s', ms[1..]);
      var later := Serve(fs, s', ms[1..]).1;
      if r.Ok? {
        assert ([r.value] + later)[1..] == later;
      } else {
        assert [] + later == later;
      }
    }
  }

  /** Every decodable message is answered exactly when no handler throws. */
  lemma {:induction false} AllAnsweredIff<S(!new)>(fs: Backend<S>, s: S, ms: seq<Bytes>)
    requires Honest(fs)
    ensures var answers := Serve(fs, s, ms).1;
            |answers| <= Decodable(ms) && (|answers| == Decodable(ms) <==> !SomeThrows(fs, s, ms))
    decreases |ms|
  {
    if ms != [] {
      hide Dispatch, Decodes, Throws, Answers, Honest, AfterRun;
      Served(fs, s, ms[0]);
      AllAnsweredIff(fs, Dispatch(fs, s, ms[0]).0, ms[1..]);
    }
  }

  lemma Served<S(!new)>(fs: Backend<S>, s: S, m: Bytes)
    requires Honest(fs)
    ensures Dispatch(fs, s, m).0 == AfterRun(fs, s, m)
    ensures Dispatch(fs, s, m).1.Ok? <==> Decodes(m) && !Throws(fs, s, m)
    ensures Dispatch(fs, s, m).1.Ok? ==> Answers(Dispatch(fs, s, m).1.value, m)
  {
    hide Dispatch, IdOf, U32Bytes, ParseRequest;
    AnsweredIff(fs, s, m);
    if Dispatch(fs, s, m).1.Ok? { AnswerHeader(fs, s, m); }
  }

  function AfterFrames<S(!new)>(fs: Backend<S>, c: ClientState<S>, frames: seq<Frame>): ClientState<S>
    requires Honest(fs)
    decreases |frames|
  {
    if frames == [] then c
    else AfterFrames(fs, AfterClientReceive(fs, c, frames[0].piece, frames[0].final), frames[1..])
  }

  lemma {:induction false} RequestsLeaveBuffer<S(!new)>(fs: Backend<S>, c: ClientState<S>, ms: seq<Bytes>, b: Bytes)
    requires Honest(fs)
    ensures AfterRequests(fs, c.(buffer := b), ms) == AfterRequests(fs, c, ms).(buffer := b)
    decreases |ms|
  {
    hide Dispatch;
    if ms != [] { RequestsLeaveBuffer(fs, AfterRequest(fs, c, ms[0]), ms[1..], b); }
  }

  /** Receiving frames serves the messages they carry, decodable or not, and keeps the incomplete rest. */
  lemma {:induction false} FramesAreMessages<S(!new)>(fs: Backend<S>, c: ClientState<S>, frames: seq<Frame>)
    requires Honest(fs)
    ensures var (ms, rest) := Reassemble(c.buffer, frames);
            AfterFrames(fs, c, frames) == AfterRequests(fs, c, ms).(buffer := rest)
    decreases |frames|
  {
    hide Dispatch;
    if frames != [] {
      var m := c.buffer + frames[0].piece;
      FramesAreMessages(fs, AfterClientReceive(fs, c, frames[0].piece, frames[0].final), frames[1..]);
      if frames[0].final {
        RequestsLeaveBuffer(fs, AfterRequest(fs, c, m), Reassemble([], frames[1..]).0, []);
      } else {
        RequestsLeaveBuffer(fs, c, Reassemble(m, frames[1..]).0, m);
      }
    }
  }

  /**
   However requests are cut on the way, a provider with an empty buffer answers those that decode and do not throw,
   one for one and in order, and ends with an empty buffer again.
   */
  lemma AnswersDespiteCuts<S(!new)>(fs: Backend<S>, c: ClientState<S>, cuts: seq<seq<Bytes>>)
    requires Honest(fs) && c.buffer == []
    requires forall pieces | pieces in cuts :: pieces != []
    ensures var c' := AfterFrames(fs, c, AllFrames(cuts));
            var ms := Joined(cuts);
            var (s', answers) := Serve(fs, c.backend, ms);
            && c'.backend == s' && c'.buffer == [] && c'.answers == c.answers + answers
            && AnsweredInOrder(fs, c.backend, answers, ms)
            && (|answers| == Decodable(ms) <==> !SomeThrows(fs, c.backend, ms))
  {
    hide AfterRequests, Serve, AnsweredInOrder, SomeThrows, Decodable;
    CutsDoNotMatter(cuts);
    FramesAreMessages(fs, c, AllFrames(cuts));
    RequestsAreServed(fs, c, Joined(cuts));
    OneAnswerEach(fs, c.backend, Joined(cuts));
    AllAnsweredIff(fs, c.backend, Joined(cuts));
  }

  class Handler<S(!new)> {
    const provider: P.Provider<S>
    var currentMessage: Bytes
    var requests: seq<Bytes>
    var sent: seq<Bytes>
    var armed: bool

    function View(): ClientState<S>
      reads this, provider
    {
      ClientState(provider.state, currentMessage, requests, sent, armed)
    }

    constructor (provider: P.Provider<S>)
      ensures this.provider == provider && View() == ClientState(provider.state, [], [], [], false)
    {
      this.provider := provider;
      currentMessage, requests, sent, armed := [], [], [], false;
    }

    /** `LWS_CALLBACK_CLIENT_RECEIVE`; the buffer is emptied when the reader takes it over. */
    method OnReceive(fragment: Bytes, final: bool)
      requires Honest(provider.fs)
      modifies this, provider
      ensures View() == AfterClientReceive(provider.fs, old(View()), fragment, final)
    {
      hide Dispatch;
      currentMessage := currentMessage + fragment;
      if final {
        var message := currentMessage;
        currentMessage := [];
        var answer := provider.OnMessage(message);
        if answer.Ok? {
          requests := requests + [answer.value];
          armed := true;
        }
      }
    }

    /** `LWS_CALLBACK_CLIENT_WRITEABLE`. */
    method OnWritable()
      modifies this
      ensures View() == AfterClientWritable(old(View()))
    {
      armed := false;
      if requests != [] {
        var writer := requests[0];
        requests := requests[1..];
        sent := sent + [writer];
      }
      if requests != [] { armed := true; }
    }

    /** `LWS_CALLBACK_CLIENT_CLOSED` and `LWS_CALLBACK_CLIENT_CONNECTION_ERROR`. */
    method OnDisconnect()
      modifies this
      ensures View() == AfterDisconnect(old(View()))
    {
      requests := [];
      currentMessage := [];
      armed := false;
    }
  }
}
