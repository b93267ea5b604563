/**
 `server_handler`, method by method, against the state machine of module `Service`.
 Each method answers one callback of the socket library; its status is the callback's result.
 */
module ServerHandler {
  import opened Bytes
  import opened Codec
  import opened Message
  import opened Service

  class Handler {
    const env: Settings
    const headroom: nat
    var connection: Option<Conn>
    var id: u32
    var shutdownRequested: bool
    var isAuthenticated: bool
    var currentMessage: Bytes
    var requests: seq<Bytes>
    var pendingResponses: map<u32, Ticket>
    // the shared states of the futures handed out, and what the socket was asked to do
    var promises: seq<Promise>
    var sent: seq<Bytes>
    var armed: bool

    function View(): State
      reads this
    {
      State(connection, id, shutdownRequested, isAuthenticated, currentMessage, requests,
                      pendingResponses, promises, sent, armed)
    }

    /** Futures and pending keys match; every callback keeps this. */
    ghost predicate Valid()
      reads this
    {
      Tickets(View())
    }

    constructor (env: Settings, headroom: nat)
      ensures this.env == env && View() == START && Valid()
    {
      this.env := env;
      this.headroom := headroom;
      connection, id, shutdownRequested, isAuthenticated := None, 0, false, false;
      currentMessage, requests, pendingResponses := [], [], map[];
      promises, sent, armed := [], [], false;
    }

    /** `filter_connection` and `authenticate_via_header`; a negative status refuses the handshake. */
    method FilterConnection(token: Bytes) returns (status: int)
      requires Valid()
      modifies `isAuthenticated
      ensures Valid()
      ensures View() == AfterFilter(env, old(View()), token)
      ensures status == 0 || status == -1
      ensures status == -1 <==> env.authenticator != "" && env.authHeader != "" && token != [] && !isAuthenticated
    {
      hide Tickets;
      StepKeepsTickets(env, View(), Filter(token));
      if env.authenticator == "" {
        isAuthenticated := true;
        return 0;
      }
      if env.authHeader == "" {
        isAuthenticated := false;
        return 0;
      }
      if token == [] {
        isAuthenticated := false;
        return 0;
      }
      var result := if env.accepts(token) then 0 else -1;
      isAuthenticated := result == 0;
      return result;
    }

    method NewId() returns (r: u32)
      modifies `id
      ensures id == NextId(old(id)) == r
    {
      id := (id + 1) % TWO32;
      if id == 0 { id := 1; }
      r := id;
    }

    /** `on_established`; a second connection is refused. */
    method OnEstablished(wsi: Conn) returns (status: int)
      requires Valid()
      modifies `connection, `id, `requests, `armed
      ensures Valid()
      ensures View() == AfterEstablished(env, old(View()), wsi)
      ensures status == if old(connection).None? then 0 else -1
    {
      hide Tickets;
      StepKeepsTickets(env, View(), Established(wsi));
      hide MessageOf;
      if connection.None? {
        connection := Some(wsi);
        id := 0;
        if !isAuthenticated && env.authenticator != "" {
          var writer := new Writer(headroom, GETCREDS);
          var id := NewId();
          writer.SetId(id);
          var message := writer.GetData();
          requests := requests + [message];
          armed := true;
        }
        return 0;
      }
      return -1;
    }

    /** `finish_authentication`; a token that cannot be read throws. */
    method FinishAuthentication(reader: Reader) returns (r: Result<()>)
      requires reader.Valid()
      modifies `isAuthenticated, `shutdownRequested, `armed, reader
      ensures View() == AfterCredentials(env, old(View()), old(reader.Rest()))
    {
      hide DecodeData;
      var credentials :- reader.ReadBytes();
      var result := env.accepts(credentials);
      if result {
        isAuthenticated := true;
      } else {
        shutdownRequested := true;
        armed := true;
      }
      return Ok(());
    }

    /** The `try` block of `on_receive`: constructing the reader empties `current_message`. */
    method Decode() returns (r: Result<()>)
      requires Tickets(View())
      modifies this
      ensures View() == AfterMessage(env, old(View()).(buffer := []), old(currentMessage))
    {
      hide DecodeData, U32Of;
      var reader := new Reader(currentMessage);
      ghost var m := currentMessage;
      currentMessage := [];
      var id :- reader.ReadU32();
      var messageType :- reader.ReadU8();
      assert reader.Rest() == m[5..];
      if messageType == GETCREDS_RESPONSE {
        r := FinishAuthentication(reader);
      } else {
        if id in pendingResponses {
          promises := promises[pendingResponses[id] := Fulfilled(reader.data)];
          pendingResponses := pendingResponses - {id};
        }
        r := Ok(());
      }
    }

    /** `on_receive`. */
    method OnReceive(fragment: Bytes, final: bool)
      requires Valid()
      modifies this
      ensures Valid()
      ensures View() == AfterReceive(env, old(View()), fragment, final)
    {
      hide Tickets;
      StepKeepsTickets(env, View(), Receive(fragment, final));
      ghost var before := View();
      currentMessage := currentMessage + fragment;
      SameTickets(before, View());
      if final {
        var caught := Decode();
      }
    }

    /** `on_writable`; a negative status closes the connection. */
    method OnWritable() returns (status: int)
      requires Valid()
      requires connection.Some?
      modifies `requests, `sent, `armed
      ensures Valid()
      ensures View() == AfterWritable(old(View()))
      ensures status == if old(shutdownRequested) then -1 else 0
    {
      hide Tickets;
      SameTickets(View(), AfterWritable(View()));
      armed := false;
      if shutdownRequested { return -1; }
      var hasMore := false;
      if requests != [] {
        var writer := requests[0];
        requests := requests[1..];
        hasMore := requests != [];
        sent := sent + [writer];
      }
      if hasMore { armed := true; }
      return 0;
    }

    /** `on_closed`. */
    method OnClosed(wsi: Conn)
      requires Valid()
      modifies `connection, `isAuthenticated, `shutdownRequested, `armed
      ensures Valid()
      ensures View() == AfterClosed(old(View()), wsi)
      ensures old(connection) == Some(wsi) ==> connection.None? && !isAuthenticated && !shutdownRequested && !armed
      ensures old(connection) != Some(wsi) ==> View() == old(View())
    {
      hide Tickets;
      StepKeepsTickets(env, View(), Closed(wsi));
      if connection == Some(wsi) {
        connection := None;
        isAuthenticated := false;
        shutdownRequested := false;
        armed := false;
      }
    }

    /** `poll`, called by the service loop before each round of callbacks. */
    method DoPoll()
      requires Valid()
      modifies `requests, `pendingResponses, `promises, `armed
      ensures Valid()
      ensures View() == AfterPoll(old(View()))
    {
      hide Tickets;
      StepKeepsTickets(env, View(), Poll);
      if requests != [] {
        if connection.Some? {
          armed := true;
        } else {
          requests := [];
          promises := Drop(promises, pendingResponses.Values);
          pendingResponses := map[];
        }
      }
    }

    /** `perform`: hands out a future for the request. */
    method DoPerform(message: Bytes) returns (future: Ticket)
      requires Valid()
      requires |message| >= 5
      modifies `id, `requests, `pendingResponses, `promises
      ensures Valid()
      ensures View() == AfterPerform(old(View()), message)
      ensures future == |old(promises)| == |promises| - 1
    {
      hide Tickets;
      StepKeepsTickets(env, View(), Perform(message));
      future := |promises|;
      if isAuthenticated {
        var id := NewId();
        requests := requests + [WithId(message, id)];
        if id in pendingResponses {
          promises := promises + [Dropped];
        } else {
          promises := promises + [Waiting];
          pendingResponses := pendingResponses[id := future];
        }
      } else {
        promises := promises + [Rejected];
      }
    }
  }
}
