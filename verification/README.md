# webfuse: a verified model

webfuse serves a FUSE filesystem whose content lives elsewhere. The service turns each filesystem
call into a request message and sends it over a WebSocket; a provider connects to the service,
decodes each request, runs it on its own filesystem and answers. This project models that path in
Dafny and proves what callers rely on.

Run `dafny verify dfyconfig.toml`.

## What is modelled

- `Bytes`, `Codec`: the wire format as a printer and a parser over lists of typed fields.
- `Flags`: the normal forms of open flags, file modes, access modes and rename flags.
- `Message`: `messagewriter` and `messagereader` as classes over a growing buffer and a cursor.
- `Calls`: every operation with its request and its reply, and the normal form that arrives.
- `Remote`: the provider's dispatch and the proxy's conclusion as functions, and call transparency.
- `Wire`: the bytes of every request and response, laid out independently of the writers.
- `Returns`: what a caller is left with, member by member, from response bytes and from the backend.
- `Truncated`: what becomes of a request that is cut short.
- `Provider`, `Proxy`: the same two, step by step, as methods proved against those functions.
- `Service`, `ServerHandler`: `server_handler` as a state machine, and its methods against it.
- `Fragments`, `Client`: fragmented delivery, and the provider's connection callback.
- `System`, `Epoch`, `Progress`: service, provider and channels together for the life of one connection, the end-to-end
  theorems, and progress under every schedule.
- `Credentials`: the credentials exchange from end to end, and its verdict in every run on a connection.
- `Rounds`, `Stale`: one call after the other, and what happens when a connection does not start clean.
- `Numbers`, `Url`, `Config`: `std::stoi`, the URL parser and the command line.

The main results are `Epoch.RemoteCallsAreSequential` (under any interleaving the remote system behaves
like direct calls made one after the other), `Epoch.Correlation`, `Progress.EveryScheduleFinishes`,
`Credentials.CredentialsDecide`, `Stale.CorrelationIffClean`, `Remote.CallTransparency`, `Remote.DecodedOrFallbackIff`,
`Returns.RemoteAttributes` and its neighbours, `Wire.RequestBytes` and `Wire.ResponseBytes`, `Service.ReachableTickets`,
`Service.FlagIff`, `Config.CommandLineMeaning` and `Codec.RoundTrip`.

### Conventions

- The backend is an arbitrary function from a state and a call to a state and either an answer or a throw. It stands for
  the whole handler between decoding and the return of the writer, so a read buffer that cannot be allocated is
  such a throw, and what was done to the state before a throw stays done. A read that answers has filled the buffer
  it was given and reports no more than its size (`Remote.Honest`).
- A request whose handler throws gets no answer; its caller waits until its timeout and falls back.
- The authenticator program is an arbitrary predicate on tokens. The token of an HTTP header is an
  input of the filter step and empty when the header is missing.
- A promise's shared state is an entry in a list, and its future is the index. A promise that is
  destroyed unanswered is `Dropped`. A timeout is a wait that ends while the promise is open.
- A moved-from `std::string` is empty. The check of `is_authenticated` and the enqueuing are one step.
- The socket library calls a side's writable callback only for a live connection and only after that side asked for it.
  The service loop polls between callbacks.
- A caller's out-parameters have values of their own before the call, and what an operation leaves in them is part of
  its result.
- Types and constants are those of Linux on x86-64, where the local `O_LARGEFILE` is 0.
- A connection starts clean when queue, map of pending promises and fragment buffer are empty.

### Where the code and doc/protocol.md differ

The model follows the code.

- `read_u64` collects eight bytes in 32 bits, so it returns the value modulo 2^32. The invalid handle
  (all ones) therefore arrives as 2^32 - 1 (`Remote.InvalidHandleChanges`).
- `mknod` writes its device in eight bytes and the provider reads four, the high half
  (`Remote.MknodDevice`).
- The document lists the access mode as `u32` among the types; the code, and the document's own request
  table, send one byte. It gives `write` the type 0x17 and no path; the code sends type 0x11 and the path first
  (`Wire.RequestBytes`).
- Strings of 2^32 bytes or more are cut, and lists of 2^32 entries or more announce a smaller count
  (`Codec.OverlongList`).
- With a local `O_LARGEFILE` of 0, every open request carries that flag on the wire, and no provider built with the same
  headers sees it (`Flags.SentFlags`, `Flags.OpenFlagsTrip`).

Call transparency is stated for every call, with `Calls.Normal` saying what arrives. The calls that
arrive as they were made are exactly the representable ones (`Calls.NormalIffRepresentable`,
`Remote.ArrivesUnchangedIffRepresentable`), and likewise for what comes back (`Calls.NormalOutcomeIffFits`).

### Half-read responses

The reads of `getattr`, `statfs` and `readdir` store what they read at once. When a later read throws, the operation
answers with the fallback's result, but the members or entries already stored stay, and for the root that result is 0.
`Remote.HalfListing` and `Remote.HalfAttributes` are such responses. `Remote.DecodedOrFallbackIff` says exactly for
which responses every caller ends with either the decoded outcome or the untouched fallback.

### One flag for all clients

`is_authenticated` belongs to the service, not to a connection, and every handshake sets it. A client that is connected
and has sent no credentials gets requests as soon as another client's handshake brings an accepted token
(`Service.OtherClientOpensTheGate`). `Service.AuthenticatedIff` says for every run when the flag is set.

### Why a connection must start clean

`on_closed` keeps queue, pending promises and fragment buffer, `poll` clears only queue and promises and only while the
queue is not empty, and `on_established` restarts the identifiers. `Stale.LeftoverPromiseIsReachable`,
`Stale.LeftoverBufferIsReachable` and `Stale.LeftoverQueueIsReachable` give runs that leave a promise, the first
bytes of a message or a request to the next connection. `Stale.CorrelationIffClean` shows that for an authenticated
service all runs are correlated exactly when nothing is left, and `Stale.LeftoverIsMisdelivered` that every leftover
promise can get the answer to another call.

Within a connection correlation needs room for the next identifier. `Epoch.NoRoomIff` says exactly when there is none,
`Epoch.RoomRunsOut` that every clean connection can get there, and `Epoch.CallWithoutRoomBreaks` what the next
call then does.

## Model

| member | source | states |
|---|---|---|
| Codec.RoundTrip | src/webfuse/ws/messagereader.cpp:93-178 | reading any printed field list with its own schema returns the received values and stops at the end of the fields, whatever follows |
| Codec.RoundTripIffDelimited | src/webfuse/ws/messagewriter.cpp:134-142 | that holds exactly when every list is shorter than 2^32 |
| Codec.OverlongList | src/webfuse/ws/messagewriter.cpp:134-142 | a list of 2^32 entries is read as the empty list, with all its entries left unread |
| Codec.LosslessIffFits | src/webfuse/ws/messagereader.cpp:123-178 | for any field list whatever, the fields come back unchanged exactly when 64-bit values are below 2^32 and strings and lists are shorter than 2^32 |
| Codec.LongestIsMaximal | src/webfuse/ws/messagereader.cpp:50-78 | the fields read before a throw are the longest part of the schema that decodes |
| Codec.WholeIsMaximal | src/webfuse/ws/messagereader.cpp:170-178 | the entries read before a throw are the longest part of the announced list that decodes |
| Codec.Extends | src/webfuse/ws/messagereader.cpp:93-178 | a successful read answers the same on every longer buffer and leaves a suffix of its input |
| Codec.StrictPrefixThrows | src/webfuse/ws/messagereader.cpp:93-178 | a message cut short anywhere makes the same-schema read throw |
| Codec.Canonical | src/webfuse/ws/messagewriter.cpp:84-142 | without 64-bit fields, printing what was read restores the bytes that were read |
| Message.SetIdLast | src/webfuse/ws/messagewriter.cpp:47-57 | setting the identifier after the body gives the message that was written with it first |
| Message.Writer.SetId | src/webfuse/ws/messagewriter.cpp:47-57 | the in-place patch keeps the buffer a message with the new identifier and the same fields |
| Message.Writer.WriteData | src/webfuse/ws/messagewriter.cpp:114-132 | appends one length-prefixed field; length and bytes are those modulo 2^32 |
| Message.Writer.WriteStrings | src/webfuse/ws/messagewriter.cpp:134-142 | the loop of single writes appends exactly one list field |
| Message.Writer.WriteAttr | src/webfuse/ws/messagewriter.cpp:144-157 | appends the fields of a file's attributes, the mode converted twice |
| Message.Reader.ReadU64 | src/webfuse/ws/messagereader.cpp:123-143 | moves the cursor by eight and returns the value modulo 2^32, or throws without enough bytes |
| Message.Reader.ReadBytes | src/webfuse/ws/messagereader.cpp:152-168 | agrees with the parser and never moves the cursor out of the buffer |
| Message.Reader.ReadStrings | src/webfuse/ws/messagereader.cpp:170-178 | the caller's list grows by exactly the entries that are whole, also when the read throws, and otherwise the read agrees with the parser |
| Message.Reader.ReadAttr | src/webfuse/ws/messagereader.cpp:50-66 | the members of the caller's structure up to the first one that cannot be read are assigned, also when the read throws, and otherwise the read agrees with the parser |
| Message.Reader.ReadStatistics | src/webfuse/ws/messagereader.cpp:68-78 | the same for the statistics |
| Flags.FromInt | src/webfuse/filesystem/openflags.cpp:18-46 | the tests in their order send the union of the shared masks contained in the word, and O_LARGEFILE when the local mask is contained |
| Flags.ToInt | src/webfuse/filesystem/openflags.cpp:48-76 | the tests in their order give the union of the shared masks contained in the word, and the local O_LARGEFILE when the wire's is |
| Flags.SentFlags | src/webfuse/filesystem/openflags.cpp:34 | what is sent is the local form, with O_LARGEFILE added to every word when the local mask is 0 |
| Flags.OpenFlagsTrip | src/webfuse/filesystem/openflags.cpp:18-76 | to_int after from_int is the union of the local masks contained in the word, whether the local O_LARGEFILE is 0 or 0x8000 |
| Flags.InteriorGreatest | src/webfuse/filesystem/openflags.cpp:18-76 | for any mask list, the result is the greatest union of listed masks inside the word |
| Flags.InteriorFixed | src/webfuse/filesystem/openflags.cpp:18-76 | for any mask list, a word is unchanged exactly when it is a union of listed masks |
| Flags.InteriorMonotone | src/webfuse/filesystem/openflags.cpp:18-76 | for any mask list, more bits in never means fewer bits out |
| Flags.OpenFlagsRoundTrip | src/webfuse/filesystem/openflags.cpp:18-76 | that form is contractive and idempotent and keeps every listed flag |
| Flags.KnownIffFixed | src/webfuse/filesystem/openflags.cpp:18-76 | open flags survive exactly when they have local bits only, O_SYNC with O_DSYNC and O_TMPFILE with O_DIRECTORY |
| Flags.ConvertMode | src/webfuse/filesystem/filemode.cpp:19-47 | keeps the permissions, and the type when it is one of the seven |
| Flags.ModeIdempotent | src/webfuse/filesystem/filemode.cpp:19-47 | converting a mode several times is converting it once |
| Flags.ModeFixed | src/webfuse/filesystem/filemode.cpp:19-47 | the modes that survive are those without foreign bits and with no type or one of the seven |
| Flags.KnownTypes | src/webfuse/filesystem/filemode.cpp:19-47 | of the sixteen types exactly fifo, character device, directory, block device, regular file, link and socket are kept, the permissions always, and no bit above them |
| Flags.ConvertAccessMode | src/webfuse/filesystem/accessmode.cpp:18-38 | keeps the three permission bits |
| Calls.NormalIffRepresentable | src/webfuse/filesystem.cpp:21-420 | the backend receives a call as it was made exactly when its arguments are representable |
| Calls.RequestArrives | src/webfuse/provider.cpp:136-381 | what the proxy writes for any call the provider reads as that call's normal form, with any bytes behind it |
| Calls.ReplyArrives | src/webfuse/filesystem.cpp:21-420 | what a handler writes the proxy reads as the normal form of the direct outcome |
| Calls.NormalOutcomeIffFits | src/webfuse/filesystem.cpp:37-420 | an out-value comes back unchanged exactly when it fits |
| Remote.AnswerHeader | src/webfuse/provider.cpp:48-134 | an answer has the request's identifier and its type with the top bit set; an unknown type gets a bare 0x80 header and never reaches the backend |
| Client.Served | src/webfuse/ws/client.cpp:55-69 | a message is answered exactly when it has a header, its fields decode and its handler does not throw; the answer is that message's own, and only a decoded call touches the backend |
| Remote.RequestIsServed | src/webfuse/provider.cpp:48-134 | every request the service builds decodes, runs once in normal form, and is answered unless that throws |
| Remote.ProxyTotal | src/webfuse/filesystem.cpp:21-420 | for any response bytes or failure the caller gets the decoded outcome or the fallback's result; only the operation's own out-parameter changes, a read stays within the caller's buffer, and a listing only grows, by at most one entry per four bytes |
| Remote.DecodedOrFallbackIff | src/webfuse/filesystem.cpp:37-420 | every caller ends with the decoded outcome or the untouched fallback exactly when the response decodes or stores no more than the fallback overwrites |
| Remote.HalfListing | src/webfuse/filesystem.cpp:367-385 | a response to readdir of the root that brings one of two names ends with 0 and that name |
| Remote.HalfAttributes | src/webfuse/filesystem.cpp:37-55 | a response to getattr of the root that breaks off behind the user ends with 0, the fallback's inode and the sender's user |
| Remote.CallTransparency | src/webfuse/filesystem.cpp:21-420 | encode, dispatch, encode, decode has the effect and outcome of the direct call on normal forms, for every operation, caller and backend; a call that throws has its effect and no answer |
| Remote.TransparentWhenRepresentable | src/webfuse/provider.cpp:136-375 | for representable arguments the remote call is answered exactly when the direct call does not throw, and equals it exactly when its out-value fits |
| Remote.ArrivesUnchangedIffRepresentable | src/webfuse/provider.cpp:136-375 | a recording backend sees the call that was made exactly when it is representable |
| Remote.MknodDevice | src/webfuse/provider.cpp:264-272 | of the bytes of any mknod request the provider reads the high half of the device, which is the device only for 0 |
| Remote.InvalidHandleChanges | src/webfuse/provider.cpp:288-296 | of the bytes of a request the provider reads the handle modulo 2^32, so the invalid handle does not arrive as itself |
| Remote.ReadCopiesItsResult | src/webfuse/provider.cpp:305-320 | against this provider a positive read result is the number of bytes copied to the front of the caller's buffer, whose rest stays |
| Wire.RequestBytes | doc/protocol.md:318-832 | every request the service builds is, byte for byte, identifier, type code and the arguments of its operation in the documented layout, big-endian; where the document and the code disagree, the code's |
| Wire.ResponseBytes | doc/protocol.md:318-832 | every answer of the provider is identifier, type code with its top bit set, result and, on success, the backend's values in the documented layout; credentials come without a result |
| Wire.ModesAreRead | src/webfuse/provider.cpp:199-340 | whatever word any service sends, `chmod`, `mknod`, `create` and `mkdir` take its permissions and known type, `open` its flags, and `mknod` the high half of the device |
| Wire.BytesAreRead | src/webfuse/provider.cpp:136-236 | whatever byte any service sends, `access` takes its low three bits, `rename` all of it, and `fsync` is a data sync exactly for 1 |
| Returns.ResultReturns | src/webfuse/filesystem.cpp:21-420 | a response with a failure, and any response to an operation without an out-parameter, gives its signed result and changes none of the caller's variables |
| Returns.AttributesReturn | src/webfuse/filesystem.cpp:37-55 | from the fourteen fields of a successful getattr response each member of the caller's `stat` gets its own value, 64-bit ones modulo 2^32, and no other variable changes |
| Returns.StatisticsReturn | src/webfuse/filesystem.cpp:402-420 | the same for the eight members of `statvfs` |
| Returns.LinkReturns | src/webfuse/filesystem.cpp:57-75 | a successful readlink response gives its target and changes nothing else |
| Returns.HandleReturns | src/webfuse/filesystem.cpp:212-269 | a successful open or create response gives its handle modulo 2^32 and changes nothing else |
| Returns.ListingReturns | src/webfuse/filesystem.cpp:367-385 | the names of a successful readdir response are appended to the caller's list |
| Returns.BytesReturn | src/webfuse/filesystem.cpp:302-331 | the bytes of a read response go to the front of the caller's buffer, whose rest stays; more bytes than the buffer holds end with EBADF and an untouched buffer |
| Returns.RemoteResult | src/webfuse/provider.cpp:136-375 | through both sides the caller gets the backend's own result, and with a failure its variables stay |
| Returns.RemoteAttributes | src/webfuse/provider.cpp:145-156 | through both sides each of the fourteen members of the caller's `stat` is the backend's member, modulo 2^32 where it has 64 bits |
| Returns.RemoteStatistics | src/webfuse/provider.cpp:363-375 | the same for `statvfs` |
| Returns.RemoteHandle | src/webfuse/provider.cpp:250-286 | through both sides a successful `open` or `create` gives the backend's handle modulo 2^32 |
| Returns.RemoteLink | src/webfuse/provider.cpp:158-169 | through both sides a successful `readlink` gives the backend's target |
| Returns.RemoteListing | src/webfuse/provider.cpp:350-361 | through both sides a successful `readdir` appends the backend's names to the caller's list |
| Returns.EmptyFilesystem | src/webfuse/filesystem/empty_filesystem.cpp:7-138 | a fallback result is never positive, 0 exactly for fsync, release and access, getattr and readdir of the root, and otherwise the operation's own error code; the root is a directory with mode 0555, inode 1 and one link |
| Truncated.SchemaDecides | src/webfuse/provider.cpp:136-381 | each handler's reads succeed exactly when the fields of its schema are there |
| Truncated.CutRequest | src/webfuse/provider.cpp:48-134 | a request cut short anywhere is neither run nor answered, except that losing part of the last four bytes of `mknod` goes unnoticed |
| Provider.ReadRequest | src/webfuse/provider.cpp:136-381 | the handlers' reads produce the parsed call |
| Provider.WriteReply | src/webfuse/provider.cpp:136-381 | the handlers' writes append exactly the reply's fields |
| Provider.Provider.OnMessage | src/webfuse/provider.cpp:48-134 | state and answer are those of the dispatch function; a throw while decoding leaves the backend uncalled, a later one leaves its state advanced |
| Proxy.BuildRequest | src/webfuse/filesystem.cpp:21-420 | each operation builds its request message |
| Proxy.ReadReply | src/webfuse/filesystem.cpp:21-420 | the reads store what they read in the caller's variables as they go, and what is stored when one throws is exactly the part that is whole |
| Proxy.Conclude | src/webfuse/filesystem.cpp:21-420 | each operation ends with the decoded outcome or with the fallback on what the reads have left |
| Service.ReachableTickets | src/webfuse/ws/server_handler.cpp:97-232 | in every reachable state, across any connections, a future is waiting under exactly one key, or rejected, fulfilled or dropped and under none |
| Service.SettledForGood | src/webfuse/ws/server_handler.cpp:115-121 | no run changes an answered future again, and each perform hands out one future |
| Service.SettledBy | src/webfuse/ws/server_handler.cpp:97-139 | in one step an open future is completed exactly by a whole message of at least five bytes that is no credentials response and has its identifier, broken exactly by a poll that clears the queue, and stays open otherwise |
| Service.NthIdValue | src/webfuse/ws/server_handler.cpp:281-289 | the k-th identifier is ((k - 1) mod (2^32 - 1)) + 1 |
| Service.NthIdRepeats | src/webfuse/ws/server_handler.cpp:281-289 | identifiers are never 0 and coincide exactly at multiples of 2^32 - 1 calls |
| Service.Fifo | src/webfuse/ws/server_handler.cpp:141-232 | between clears, what was written followed by the queue is what was enqueued, in order |
| Service.Drain | src/webfuse/ws/server_handler.cpp:141-175 | n callbacks write the first n requests, and another is due exactly while requests remain |
| Service.PollThenDrain | src/webfuse/ws/server_handler.cpp:141-202 | after a poll of a connected service, n callbacks empty a queue of n |
| Service.PollBreaksOpenFutures | src/webfuse/ws/server_handler.cpp:187-202 | a poll without a connection and with a queue empties queue and map and breaks exactly the open futures |
| Service.FlagIff | src/webfuse/ws/server_handler.cpp:68-306 | after any run, across any connections, each of the flags for authentication, pending shutdown and due callback is up exactly when the last step that decides about it raised it, or none lowered what was up before |
| Service.StaysDue | src/webfuse/ws/server_handler.cpp:141-306 | on a connection a callback that is due stays due until it is made or the connection is closed |
| Service.AuthenticatedIff | src/webfuse/ws/server_handler.cpp:177-306 | after any run the service is authenticated exactly when the last handshake, accepted credentials or close of the connection that decides about it granted it, or none revoked what was there before |
| Service.StaysUnauthenticated | src/webfuse/ws/server_handler.cpp:235-306 | without an accepted header token and without accepted credentials no run authenticates the service |
| Service.CredentialsFirst | src/webfuse/ws/server_handler.cpp:68-94 | on a connection established unauthenticated the credentials request is the first message until it is closed, a callback is due until it is made, and nothing else is enqueued before credentials are accepted or some client's handshake brings an accepted token |
| Service.OtherClientOpensTheGate | src/webfuse/ws/server_handler.cpp:235-264 | another client's accepted header token lets a request through to a connected client that never sent credentials |
| Service.RejectionIsFinal | src/webfuse/ws/server_handler.cpp:291-306 | from any state, once a complete credentials response is refused no run writes a message until the connection is closed, and the callback that closes it is due until it is made |
| Service.RejectedIffRefused | src/webfuse/ws/server_handler.cpp:141-185 | after any run on a connection the next writable callback closes it exactly when some credentials response was refused in that run |
| Service.ShutdownIff | src/webfuse/ws/server_handler.cpp:177-306 | in every run from the start the next callback closes the connection exactly when credentials were refused and the connection was not closed since |
| Service.NextClientIsServed | src/webfuse/ws/server_handler.cpp:68-232 | whatever happened on a connection, a refusal included, after its end and a poll the next client with an accepted token gets its first request under identifier 1 |
| ServerHandler.Handler.FilterConnection | src/webfuse/ws/server_handler.cpp:235-264 | the authentication flag and the handshake's status |
| ServerHandler.Handler.OnEstablished | src/webfuse/ws/server_handler.cpp:68-94 | the first connection is taken and may get a credentials request; a second is refused |
| ServerHandler.Handler.OnReceive | src/webfuse/ws/server_handler.cpp:97-139 | fragments gather in the buffer and a complete message has the state machine's effect |
| ServerHandler.Handler.OnWritable | src/webfuse/ws/server_handler.cpp:141-175 | writes the oldest request and asks for another callback while more remain |
| ServerHandler.Handler.OnClosed | src/webfuse/ws/server_handler.cpp:177-185 | resets the connection and both flags and nothing else |
| ServerHandler.Handler.DoPoll | src/webfuse/ws/server_handler.cpp:187-202 | asks for a callback, or drops queue and promises when there is no connection |
| ServerHandler.Handler.DoPerform | src/webfuse/ws/server_handler.cpp:205-232 | enqueues under a fresh identifier, keeps the older promise of a taken key, rejects when unauthenticated |
| Fragments.CutsDoNotMatter | src/webfuse/ws/server_handler.cpp:97-104 | however messages are cut, they come out whole and the buffer ends empty |
| Fragments.CutsLeaveTheSameState | src/webfuse/ws/server_handler.cpp:97-138 | two ways to cut the same messages, received without a break, leave the service in the same state with an empty buffer, also when decoding throws |
| Fragments.AssembledRun | src/webfuse/ws/server_handler.cpp:97-138 | any run of the service has the effect of the run with its fragments put together, and keeps the incomplete rest |
| Fragments.FragmentationIndependence | src/webfuse/ws/server_handler.cpp:97-138 | runs that differ only in how messages are cut, with any calls, polls, writes and other steps between the fragments and any peer, leave the service in the same state |
| Client.AnswersDespiteCuts | src/webfuse/ws/client.cpp:49-69 | however requests are cut, those that decode and do not throw are answered one for one and in order; all decodable ones are exactly when no handler throws |
| Client.Handler.OnReceive | src/webfuse/ws/client.cpp:49-69 | a complete message is handled once, its answer queued, and the buffer emptied even on a throw |
| Client.Handler.OnWritable | src/webfuse/ws/client.cpp:73-89 | writes the oldest answer and asks for another callback while more remain |
| Client.Handler.OnDisconnect | src/webfuse/ws/client.cpp:37-48 | empties the buffer and the queue |
| Epoch.MoveKeepsInv | src/webfuse/ws/server_handler.cpp:97-232 | every step of service, provider and channels keeps the end-to-end invariant, with holes where calls throw |
| Epoch.Correlation | src/webfuse/ws/server_handler.cpp:97-232 | in every run on a clean connection each issued request's future holds its own answer once delivered and waits before, although calls that throw leave gaps; earlier futures are untouched; the backend is where direct calls leave it |
| Epoch.RemoteCallsAreSequential | src/webfuse/ws/server.cpp:175-186 | each caller gets the outcome of its call run directly after the earlier ones in issue order, or the fallback if it stops waiting, and the backend is in the state of those direct calls |
| Epoch.IdleMeansAnswered | src/webfuse/ws/server_handler.cpp:115-121 | once nothing is queued or in flight, every request has been run and has its own answer unless its call threw; all are answered exactly when none threw |
| Epoch.EveryCallCanBeAnswered | src/webfuse/ws/client.cpp:49-90 | every reached state can go on, without new calls and with each side writing only when it asked to, until all issued requests are run and have their answers unless they threw or credentials were rejected |
| Epoch.NoRoomIff | src/webfuse/ws/server_handler.cpp:211-215 | a new identifier collides exactly when the request made 2^32 - 1 requests ago is still unanswered |
| Epoch.CallWithoutRoomBreaks | src/webfuse/ws/server_handler.cpp:205-215 | a call on a taken identifier breaks correlation |
| Epoch.RoomRunsOut | src/webfuse/ws/server_handler.cpp:205-232 | from any clean authenticated start 2^32 - 1 calls lead to a state without room, in which the next call breaks correlation |
| Progress.EveryScheduleFinishes | src/webfuse/ws/client.cpp:49-90 | every run without new calls makes at most as many writes and reads as its potential, and one in which none is left has run every request and answered those that did not throw, unless credentials were rejected |
| Progress.MoveWorks | src/webfuse/ws/server_handler.cpp:97-202 | every write and every read of some bytes lowers the potential, and no other step but a call changes it |
| Credentials.CredentialsArrive | src/webfuse/provider.cpp:377-381 | the provider answers the credentials request with the text its backend gives, and the service is authenticated exactly when its authenticator accepts that text and otherwise shuts the connection down with a callback due; nothing else changes |
| Credentials.NoCredentials | src/webfuse/ws/client.cpp:55-69 | a backend that throws instead gives no answer |
| Credentials.CredentialsDecide | src/webfuse/ws/server_handler.cpp:68-139 | in every run on a clean connection established unauthenticated the credentials request is first; shutdown is pending exactly when the backend's credentials have been taken up and are refused; without other handshakes the service is authenticated exactly when they have been taken up and are accepted, and issues nothing else before |
| Rounds.ThrowingCallStaysOpen | src/webfuse/ws/client.cpp:55-69 | a call that throws leads to an idle system in which it has been run and its future still waits |
| Stale.CorrelationIffClean | src/webfuse/ws/server_handler.cpp:68-200 | for an authenticated service without a connection, every run of the next connection is correlated exactly when no request is queued, no promise is pending and the fragment buffer is empty |
| Stale.LeftoverIsMisdelivered | src/webfuse/ws/server_handler.cpp:177-200 | each promise left pending at the start of a connection is completed in some run of service and provider with the answer to another call, whose own future breaks |
| Stale.LeftoverPromiseIsReachable | src/webfuse/ws/server_handler.cpp:68-94 | a connection lost after a request was written is followed by one that starts with that promise pending |
| Stale.LeftoverBufferIsReachable | src/webfuse/ws/server_handler.cpp:97-104 | a connection lost in the middle of an answer is followed by one that starts with those bytes in the buffer |
| Stale.LeftoverQueueIsReachable | src/webfuse/ws/server_handler.cpp:177-200 | a connection replaced before the next poll is followed by one that starts with a request queued |
| Numbers.StoiDecimal | src/webfuse/ws/url.cpp:58-59 | reading a printed number returns it, whatever non-digit follows |
| Numbers.StoiSigned | src/webfuse/ws/url.cpp:58-59 | blanks, a sign and a number are read as the signed number exactly when an `int` holds it, and throw otherwise; what follows is ignored |
| Numbers.StoiNeedsDigits | src/webfuse/ws/url.cpp:58-59 | without a digit behind blanks and sign there is no number |
| Url.ParseUrl | src/webfuse/ws/url.cpp:14-67 | the step-by-step parser computes the parts |
| Url.Splits | src/webfuse/ws/url.cpp:40-67 | scheme, host, port text and path are split at the first slash and the first colon in front of it; a port text is read as a number modulo 2^16 or throws, a missing one is 80 or 443, and an empty path is "/" |
| Url.EveryUrlSplits | src/webfuse/ws/url.cpp:14-67 | every string with one of the two schemes is put together from such parts, and every other one throws |
| Url.RoundTrip | src/webfuse/ws/url.cpp:40-67 | printing and parsing returns scheme, host, port or default port, and path; colons in the path do not matter |
| Config.Arguments.Push | src/webfuse/util/commandline_args.cpp:31-43 | appends and keeps the list null-terminated, or throws exactly when the capacity is used up |
| Config.CommandReader.Next | src/webfuse/util/commandline_reader.cpp:13-27 | advances up to the end and reports whether there is a current argument |
| Config.WsConfig.ReadArguments | src/webfuse/ws/config.cpp:51-127 | the loop computes the scan of the command line; the capacity always suffices, and the reader is never asked for an argument beyond the last |
| Config.WsConfig.Load | src/webfuse/ws/config.cpp:51-130 | throws exactly when some own option has a value that is no number; otherwise the settings are what the command line means, and the list passed on is the program name followed by the arguments that are not the service's own |
| Config.CommandLineMeaning | src/webfuse/ws/config.cpp:51-130 | each setting is the value behind the last own occurrence of its option, or its default; TLS is used exactly when a key or certificate was given; the command follows the last flag; and it fails exactly when a value is missing or a TLS run lacks a path |
| Config.LowerCase | src/webfuse/ws/config.cpp:95-107 | the header name of the authentication option is stored with its capitals, and nothing else, lowered |
| Config.PassedOnIsForeign | src/webfuse/ws/config.cpp:62-127 | what is passed on is exactly what is neither an own option nor the value of one |
| Config.PassedOnIsSubsequence | src/webfuse/ws/config.cpp:62-127 | what is passed on keeps the order of the command line and adds nothing |
| Config.ThrowsIffBadNumber | src/webfuse/ws/config.cpp:69-114 | the command line throws exactly when a port or timeout is not a number |
| Config.ConsistentOutcome | src/webfuse/ws/config.cpp:15-43 | a failure exit code comes with the help text, and running with TLS implies both paths |

## Left out

- Remote.CallTransparency: a backend that reports more bytes than the read buffer holds is excluded, because the provider then copies past its buffer.
- Epoch.Correlation: a call is made only while its identifier is free among this connection's requests; Epoch.CallWithoutRoomBreaks and Epoch.RoomRunsOut show what happens otherwise.
- Stale.CorrelationIffClean: starts after a handshake that authenticates; a service that asks for credentials first spends identifier 1 and the first answer on them, and which leftovers matter then depends on the credentials.
- Service.Enabled: a writable callback without a connection, which would write to a null socket, is not a step.
- Provider.Provider.OnMessage: all reads come before the backend call and all writes after it in one place, where the source has one handler per operation.
- Exceptions on the service's side other than those of reading a message, such as exhausted memory.
- libwebsockets itself, TLS, HTTP serving, threads and the service loop; their callbacks appear as steps in any order.
- The adapters to libfuse (src/webfuse/fuse.cpp) and the provider program with its system calls.
- Authenticator programs and the extraction of HTTP headers.
- The status table, which is the identity on Linux, and filesystem_statistics, which the codec does not use.
- The Python and JavaScript providers, which repeat the same format.
- Log output and the destructor of the argument list.
