/**
 A call made through the proxy and the provider, against the same call made directly.
 */
module Remote {
  import opened Bytes
  import opened Flags
  import opened Codec
  import opened Message
  import opened Calls

  /**
   An arbitrary `filesystem_i` behind the provider's handlers: from its state and a decoded call to its next state
   and its answer.  Whatever a handler throws after decoding ends here as well, and by then the state may have changed.
   */
  type Backend<!S> = (S, Call) -> (S, Result<Reply>)

  /** The provider relies on one thing: a read that answers has filled the buffer it was given and no more. */
  ghost predicate Honest<S(!new)>(fs: Backend<S>) {
    forall s, c :: fs(s, c).1.Ok? ==> InBounds(c, fs(s, c).1.value)
  }

  // ----- Provider -----

  /** What `on_message` reads: identifier, type and, for a known type, the call. */
  function ParseMessage(message: Bytes): (r: Result<(u32, u8, Option<Call>)>)
    ensures r.Ok? ==> r.value.1 <= 0x17
  {
    var (id, r1) :- DecodeU32(message);
    var (code, r2) :- ParseU8(r1);
    var t := RequestType(code);
    if t == 0 then Ok((id, t, None))
    else
      var c :- ParseRequest(t, r2);
      Ok((id, t, Some(c)))
  }

  /** What a handler answers to a decoded request. */
  function Answer(id: u32, t: u8, c: Call, r: Result<Reply>): Result<Bytes>
    requires t <= 0x17 && (r.Ok? ==> InBounds(c, r.value))
  {
    match r
    case Throw => Throw
    case Ok(reply) => Ok(MessageOf(id, ResponseType(t), ReplyFields(c, reply)))
  }

  /** `provider::on_message`: the backend's next state and the answer; the client callback catches what it throws. */
  function Dispatch<S(!new)>(fs: Backend<S>, s: S, message: Bytes): (S, Result<Bytes>)
    requires Honest(fs)
  {
    match ParseMessage(message)
    case Throw => (s, Throw)
    case Ok((id, t, None)) => (s, Ok(MessageOf(id, ResponseType(0), [])))
    case Ok((id, t, Some(c))) => (fs(s, c).0, Answer(id, t, c, fs(s, c).1))
  }

  function IdOf(m: Bytes): u32
    requires |m| >= 4
  {
    U32Of(m[..4])
  }

  lemma HeaderOf(id: u32, kind: u8, fields: seq<Field>)
    ensures var m := MessageOf(id, kind, fields);
            && |m| >= 5 && IdOf(m) == id && m[4] == kind && m[5..] == EncodeFields(fields)
            && DecodeU32(m) == Ok((id, m[4..])) && ParseU8(m[4..]) == Ok((kind, m[5..]))
  {
    hide U32Bytes, U32Of, EncodeFields, MessageOf;
    MessageParts(id, kind, fields);
    U32OfBytes(id);
    var m := MessageOf(id, kind, fields);
    assert m[..4] == U32Bytes(id);
    assert m[4..] == [kind] + EncodeFields(fields);
    assert m[4..][1..] == m[5..];
  }

  /** The message has a header, and its fields decode if its type is known. */
  predicate Decodes(m: Bytes) {
    |m| >= 5 && (Known(m) ==> ParseRequest(m[4], m[5..]).Ok?)
  }

  predicate Known(m: Bytes) {
    |m| >= 5 && 1 <= m[4] <= 0x17
  }

  /** The handler throws after the fields have decoded. */
  predicate Throws<S>(fs: Backend<S>, s: S, m: Bytes)
    requires Decodes(m)
  {
    Known(m) && fs(s, ParseRequest(m[4], m[5..]).value).1.Throw?
  }

  /** A message is answered exactly when it decodes and its handler does not throw; only a decoded call runs. */
  lemma AnsweredIff<S(!new)>(fs: Backend<S>, s: S, m: Bytes)
    requires Honest(fs)
    ensures Dispatch(fs, s, m).1.Ok? <==> Decodes(m) && !Throws(fs, s, m)
    ensures Dispatch(fs, s, m).0
            == if Known(m) && Decodes(m) then fs(s, ParseRequest(m[4], m[5..]).value).0 else s
  {
    hide U32Of, ParseRequest;
    if |m| >= 5 { assert m[4..][1..] == m[5..]; }
  }

  /**
   Every answer carries the identifier of the request; its type is the request's with the top bit
   set, and a request of unknown type gets a bare header without reaching the backend.
   */
  lemma AnswerHeader<S(!new)>(fs: Backend<S>, s: S, m: Bytes)
    requires Honest(fs) && Dispatch(fs, s, m).1.Ok?
    ensures var a := Dispatch(fs, s, m).1.value;
            && |m| >= 5 && |a| >= 5 && IdOf(a) == IdOf(m)
            && (Known(m) ==> a[4] == m[4] + 0x80)
            && (!Known(m) ==> a == U32Bytes(IdOf(m)) + [0x80] && Dispatch(fs, s, m).0 == s)
  {
    hide U32Of, U32Bytes, ParseRequest, ReplyFields, MessageOf;
    var id := IdOf(m);
    assert m[4..][1..] == m[5..];
    if Known(m) {
      var c := ParseRequest(m[4], m[5..]).value;
      HeaderOf(id, ResponseType(m[4]), ReplyFields(c, fs(s, c).1.value));
    } else {
      HeaderOf(id, ResponseType(0), []);
      MessageParts(id, ResponseType(0), []);
    }
  }

  /** Whatever follows it, the provider reads a request the service built as the call's normal form. */
  lemma RequestIsRead(id: u32, c: Call, more: Bytes)
    ensures ParseMessage(RequestMessage(id, c) + more) == Ok((id, TypeCode(c), Some(Normal(c))))
  {
    hide U32Of, U32Bytes, ParseRequest, EncodeFields, MessageOf, Normal;
    MessageParts(id, TypeCode(c), RequestFields(c));
    U32OfBytes(id);
    var m := RequestMessage(id, c) + more;
    assert m[..4] == U32Bytes(id);
    assert m[4..] == [TypeCode(c)] + (EncodeFields(RequestFields(c)) + more);
    assert m[4..][1..] == EncodeFields(RequestFields(c)) + more;
    RequestArrives(c, more);
  }

  /** A request the service built is decoded and run in its normal form, and answered unless that throws. */
  lemma RequestIsServed<S(!new)>(fs: Backend<S>, s: S, id: u32, c: Call)
    requires Honest(fs)
    ensures var (s', r) := fs(s, Normal(c));
            Dispatch(fs, s, RequestMessage(id, c)) == (s', Answer(id, TypeCode(c), Normal(c), r))
  {
    hide ParseMessage, RequestMessage, Answer, Normal;
    RequestIsRead(id, c, []);
    assert RequestMessage(id, c) + [] == RequestMessage(id, c);
  }

  // ----- Proxy -----

  /** How `ws_server::perform` ends: with a response, or by throwing. */
  datatype Arrival = Arrived(message: Bytes) | Unauthenticated | Broken | Timeout

  const ENOENT: i32 := -2
  const EPERM: i32 := -1
  const EBADF: i32 := -9
  const ENOSYS: i32 := -38

  predicate IsRoot(path: Bytes) {
    path == [0x2f]
  }

  /** `empty_filesystem`, which every operation of the proxy falls back on. */
  function FallbackResult(c: Call): i32
    requires !c.GetCreds?
  {
    match c
    case Access(path, _) => if IsRoot(path) then 0 else ENOENT
    case GetAttr(path) => if IsRoot(path) then 0 else ENOENT
    case ReadLink(_) => ENOENT
    case Symlink(_, _) => ENOENT
    case Link(_, _) => ENOENT
    case Rename(_, _, _) => ENOENT
    case Chmod(_, _) => EPERM
    case Chown(_, _, _) => EPERM
    case Truncate(_, _, _) => EPERM
    case Fsync(_, _, _) => 0
    case Utimens(_, _, _, _) => ENOSYS
    case Open(_, _) => ENOENT
    case Mknod(_, _, _) => EPERM
    case Create(_, _) => EPERM
    case Release(_, _) => 0
    case Unlink(_) => EPERM
    case Read(_, _, _, _) => EBADF
    case Write(_, _, _, _) => EBADF
    case Mkdir(_, _) => EPERM
    case ReadDir(path) => if IsRoot(path) then 0 else ENOENT
    case Rmdir(_) => EPERM
    case StatFs(_) => ENOSYS
  }

  /** Inode 1, one link, mode 040555; the other members stay as they are. */
  function RootAttr(a: Attr): Attr {
    a.(head := a.head.(ino := 1, nlink := 1, mode := 0x416D))
  }

  function FallbackOn(c: Call, out: Outs): Reply
    requires !c.GetCreds?
  {
    Reply(FallbackResult(c), if c.GetAttr? && IsRoot(c.path) then out.(attr := RootAttr(out.attr)) else out)
  }

  /** The caller's variables after a decode that throws: what was read before is already stored. */
  function Filled(c: Call, body: Bytes, out: Outs): Outs {
    match ParseI32(body)
    case Throw => out
    case Ok((result, d)) =>
      if result != 0 then out else FilledParts(c, d, out)
  }

  function FilledParts(c: Call, d: Bytes, out: Outs): Outs {
    match c
    case GetAttr(_) => out.(attr := FillAttr(out.attr, d))
    case StatFs(_) => out.(stats := FillStats(out.stats, d))
    case ReadDir(_) => out.(entries := out.entries + WholeEntries(d))
    case _ => out
  }

  /** The service hands over the response behind its five header bytes. */
  predicate HasBody(a: Arrival) {
    a.Arrived? && |a.message| >= 5
  }

  predicate Understood(c: Call, a: Arrival) {
    HasBody(a) && ParseReply(c, a.message[5..]).Ok?
  }

  /** How an operation of the proxy ends, for every way in which the exchange can end. */
  function Finish(c: Call, a: Arrival, out: Outs): Reply
    requires !c.GetCreds?
  {
    if !HasBody(a) then FallbackOn(c, out)
    else match ParseReply(c, a.message[5..])
         case Ok(o) => Seen(out, o)
         case Throw => FallbackOn(c, Filled(c, a.message[5..], out))
  }

  /**
   For any bytes in a response and any failure of the exchange the caller gets the decoded outcome or the fallback's
   result; no variable but the operation's own out-parameter changes; a read never writes past the caller's buffer
   and leaves it alone unless its result is positive; and a listing only grows, by at most one entry per four
   bytes of the response.
   */
  lemma ProxyTotal(c: Call, a: Arrival, out: Outs)
    requires !c.GetCreds? && (c.Read? ==> |out.buffer| == c.size)
    ensures var r := Finish(c, a, out);
            && (if Understood(c, a) then r == Seen(out, ParseReply(c, a.message[5..]).value)
                else r.result == FallbackResult(c))
            && (r.out.attr == out.attr || c.GetAttr?) && (r.out.text == out.text || c.ReadLink?)
            && (r.out.handle == out.handle || c.Open? || c.Create?) && (r.out.stats == out.stats || c.StatFs?)
            && (r.out.buffer == out.buffer || (c.Read? && r.result > 0)) && |r.out.buffer| == |out.buffer|
            && (r.out.entries == out.entries || c.ReadDir?) && out.entries <= r.out.entries
            && (HasBody(a) ==> 4 * (|r.out.entries| - |out.entries|) <= |a.message|)
            && (!HasBody(a) ==> r.out.entries == out.entries)
  {
    hide ParseI32, DecodeData, DecodeU64, ParseAttr, ParseStats, FillAttr, FillStats, WholeEntries, ParseStrings,
      FallbackResult;
    if HasBody(a) && ParseI32(a.message[5..]).Ok? {
      ResultLength(a.message[5..]);
      ListingBound(ParseI32(a.message[5..]).value.1);
    }
  }

  lemma ResultLength(d: Bytes)
    ensures ParseI32(d).Ok? ==> |ParseI32(d).value.1| + 4 == |d|
  {
  }

  lemma ListingBound(d: Bytes)
    ensures 4 * |WholeEntries(d)| <= |d|
    ensures ParseStrings(d).Ok? ==> ParseStrings(d).value.0 == WholeEntries(d)
  {
    hide DecodeU32, DecodeAll, WholeEntries;
    WholeEntriesDecide(d);
  }

  // ----- When the fallback is the untouched one -----

  /** How many members or entries a response that does not decode has left in the caller's variables. */
  function Parts(c: Call, a: Arrival): nat {
    if !HasBody(a) then 0
    else match ParseI32(a.message[5..])
         case Throw => 0
         case Ok((result, d)) =>
           if result != 0 then 0
           else match c
                case GetAttr(_) => |Longest(ATTR_TYPES, d)|
                case StatFs(_) => |Longest(STATS_TYPES, d)|
                case ReadDir(_) => |WholeEntries(d)|
                case _ => 0
  }

  /** The members that the fallback overwrites: the first three of the root's attributes. */
  function Overwritten(c: Call): nat {
    if c.GetAttr? && IsRoot(c.path) then 3 else 0
  }

  const BLANK := Outs(
    Attr(AttrHead(0, 0, 0, 0, 0, 0, 0, 0), Time(0, 0), Time(0, 0), Time(0, 0)), [], 0, [], [],
    Stats(0, 0, 0, 0, 0, 0, 0, 0))

  lemma {:induction false} EarlyMembers(a: Attr, fs: seq<Field>)
    requires Typed(fs, ATTR_TYPES)
    ensures |fs| >= 1 ==> WithMembers(a, fs).head.ino == fs[0].q
    ensures |fs| >= 4 ==> WithMembers(a, fs).head.uid == fs[3].w
    decreases |fs|
  {
    if fs != [] {
      hide ModeForm, U64ToI64;
      EarlyMembers(a, fs[..|fs| - 1]);
    }
  }

  lemma {:induction false} FirstStat(s: Stats, fs: seq<Field>)
    requires Typed(fs, STATS_TYPES) && fs != []
    ensures WithStats(s, fs).bsize == fs[0].q
    decreases |fs|
  {
    if |fs| > 1 {
      FirstStat(s, fs[..|fs| - 1]);
    } else {
      assert fs[..0] == [];
    }
  }

  /** Up to three members leave no trace under the root's own. */
  lemma CoveredMembers(a: Attr, fs: seq<Field>)
    requires Typed(fs, ATTR_TYPES) && |fs| <= 3
    ensures RootAttr(WithMembers(a, fs)) == RootAttr(a)
  {
    NoMembers(a, fs);
    hide WithMembers, ModeForm;
    if |fs| >= 1 { OneMore(a, fs, 0); }
    if |fs| >= 2 { OneMore(a, fs, 1); }
    if |fs| >= 3 { OneMore(a, fs, 2); }
    assert fs[..|fs|] == fs;
  }

  lemma CleanFallback(c: Call, a: Arrival, out: Outs)
    requires !c.GetCreds? && !Understood(c, a) && Parts(c, a) <= Overwritten(c)
    ensures Finish(c, a, out) == FallbackOn(c, out)
  {
    hide ParseReply, ParseI32, Longest, WholeEntries, WithMembers, WithStats, FallbackResult, IsRoot, RootAttr;
    if HasBody(a) && ParseI32(a.message[5..]).Ok? {
      var d := ParseI32(a.message[5..]).value.1;
      LongestTyped(ATTR_TYPES, d);
      LongestTyped(STATS_TYPES, d);
      NoMembers(out.attr, []);
      NoStats(out.stats);
      if |Longest(ATTR_TYPES, d)| <= 3 { CoveredMembers(out.attr, Longest(ATTR_TYPES, d)); }
    }
  }

  lemma NoStats(s: Stats)
    ensures WithStats(s, []) == s
  {
  }

  /** With more parts than the fallback overwrites there are callers that end with something else. */
  lemma TouchedFallback(c: Call, a: Arrival) returns (out: Outs)
    requires !c.GetCreds? && !Understood(c, a) && Parts(c, a) > Overwritten(c)
    ensures Finish(c, a, out) != FallbackOn(c, out)
  {
    hide ParseReply, ParseI32, Longest, WholeEntries, WithMembers, WithStats, FallbackResult, IsRoot;
    var d := ParseI32(a.message[5..]).value.1;
    out := BLANK;
    match c
    case GetAttr(path) =>
      var fs := Longest(ATTR_TYPES, d);
      LongestTyped(ATTR_TYPES, d);
      var other: u32 := if |fs| >= 4 && fs[3].w == 0 then 1 else 0;
      out := BLANK.(attr := BLANK.attr.(head := BLANK.attr.head.(ino := if fs[0].q == 0 then 1 else 0, uid := other)));
      EarlyMembers(out.attr, fs);
    case StatFs(path) =>
      var fs := Longest(STATS_TYPES, d);
      LongestTyped(STATS_TYPES, d);
      out := BLANK.(stats := BLANK.stats.(bsize := if fs[0].q == 0 then 1 else 0));
      FirstStat(out.stats, fs);
    case ReadDir(path) =>
  }

  /**
   Exactly when every caller, whatever its variables held, ends with the decoded outcome or the untouched fallback:
   the response decodes, or no more has been stored than the fallback overwrites.
   */
  lemma DecodedOrFallbackIff(c: Call, a: Arrival)
    requires !c.GetCreds?
    ensures (forall out ::
               || (Understood(c, a) && Finish(c, a, out) == Seen(out, ParseReply(c, a.message[5..]).value))
               || Finish(c, a, out) == FallbackOn(c, out))
            <==> Understood(c, a) || Parts(c, a) <= Overwritten(c)
  {
    if !Understood(c, a) {
      hide Finish, FallbackOn, Parts, Overwritten;
      if Parts(c, a) <= Overwritten(c) {
        forall out ensures Finish(c, a, out) == FallbackOn(c, out) { CleanFallback(c, a, out); }
      } else {
        var out := TouchedFallback(c, a);
      }
    }
  }

  /** A listing of the root that announces two names and brings one: result 0 and that one name. */
  lemma HalfListing(id: u32, out: Outs)
    ensures var c := ReadDir([0x2f]);
            var m := MessageOf(id, 0x93, [U32(0), U32(2), Data([0x61])]);
            && Finish(c, Arrived(m), out) == Reply(0, out.(entries := out.entries + [[0x61]]))
            && !Understood(c, Arrived(m)) && Finish(c, Arrived(m), out) != FallbackOn(c, out)
  {
    hide EncodeField, EncodeFields, DecodeU32, DecodeData, MessageOf, U32Of;
    var fs := [U32(0), U32(2), Data([0x61])];
    HeaderOf(id, 0x93, fs);
    Spread3(U32(0), U32(2), Data([0x61]), []);
    assert EncodeFields(fs) + [] == EncodeFields(fs);
    var listing := EncodeField(U32(2)) + (EncodeField(Data([0x61])) + []);
    ResultArrives(0, listing);
    U32Arrives(2, EncodeField(Data([0x61])) + []);
    DataArrives([0x61], []);
    assert DecodeData([]).Throw? by { NothingToRead(); }
    assert Clip([0x61]) == [0x61];
    OneWhole(EncodeField(Data([0x61])) + [], [0x61]);
    assert out.entries + [[0x61]] != out.entries;
  }

  lemma NothingToRead()
    ensures DecodeData([]).Throw? && DecodeU32([]).Throw?
  {
  }

  lemma OneWhole(d: Bytes, s: Bytes)
    requires DecodeData(d) == Ok((s, [])) && DecodeData([]).Throw?
    ensures Whole(2, d) == [s] && DecodeAll(2, d).Throw?
  {
    hide DecodeData;
    assert Whole(1, []) == [] && DecodeAll(1, []).Throw?;
  }

  /** Attributes of the root that break off behind the user: result 0, the root's own inode, and the sender's user. */
  lemma HalfAttributes(id: u32, ino: u64, nlink: u64, mode: u32, uid: u32, out: Outs)
    ensures var c := GetAttr([0x2f]);
            var m := MessageOf(id, 0x82, [U32(0), U64(ino), U64(nlink), U32(mode), U32(uid)]);
            var r := Finish(c, Arrived(m), out);
            !Understood(c, Arrived(m)) && r.result == 0 && r.out.attr.head.ino == 1 && r.out.attr.head.uid == uid
  {
    hide EncodeField, EncodeFields, DecodeU32, MessageOf, U32Of, Longest, DecodeFields, WithMembers;
    var fs := [U64(ino), U64(nlink), U32(mode), U32(uid)];
    assert [U32(0)] + fs == [U32(0), U64(ino), U64(nlink), U32(mode), U32(uid)];
    HeaderOf(id, 0x82, [U32(0)] + fs);
    SpreadMore(U32(0), fs, []);
    ResultArrives(0, EncodeFields(fs) + []);
    var d := EncodeFields(fs) + [];
    assert EncodeFields([U32(0)] + fs) + [] == EncodeFields([U32(0)] + fs);
    RoundTrip(fs, []);
    assert TypesOf(fs) == ATTR_TYPES[..4];
    FourMembers(d, fs);
    LongestTyped(ATTR_TYPES, d);
    EarlyMembers(out.attr, Longest(ATTR_TYPES, d));
  }

  lemma FourMembers(d: Bytes, fs: seq<Field>)
    requires DecodeFields(ATTR_TYPES[..4], d) == Ok((ReceivedAll(fs), [])) && |fs| == 4 && fs[3].U32?
    ensures |Longest(ATTR_TYPES, d)| == 4 && Longest(ATTR_TYPES, d)[3] == fs[3]
  {
    LongestIsMaximal(ATTR_TYPES, d, 4);
    hide Longest, DecodeFields;
    assert ATTR_TYPES[..5][..4] == ATTR_TYPES[..4];
    if |Longest(ATTR_TYPES, d)| > 4 {
      LongestIsMaximal(ATTR_TYPES, d, 5);
      MoreNeedsBytes(ATTR_TYPES[..5], d);
      assert false;
    }
    assert Longest(ATTR_TYPES, d)[..4][3] == Longest(ATTR_TYPES, d)[3];
  }

  /** A schema that decodes with a field to spare leaves bytes before that field. */
  lemma MoreNeedsBytes(ts: seq<FieldType>, d: Bytes)
    requires ts != [] && DecodeFields(ts, d).Ok?
    ensures DecodeFields(ts[..|ts| - 1], d).Ok? && DecodeFields(ts[..|ts| - 1], d).value.1 != []
    decreases |ts|
  {
    hide DecodeField;
    FieldExtends(ts[0], d, []);
    if |ts| > 1 {
      MoreNeedsBytes(ts[1..], DecodeField(ts[0], d).value.1);
      assert ts[..|ts| - 1][1..] == ts[1..][..|ts| - 2];
    }
  }

  // ----- Call transparency -----

  /** The proxy checks a read against its caller's buffer, which is at least what was asked for. */
  lemma SameReply(c: Call, d: Bytes)
    requires ParseReply(Normal(c), d).Ok?
    ensures ParseReply(c, d) == ParseReply(Normal(c), d)
  {
    hide DecodeU64, DecodeData, ParseAttr, ParseStats, ParseStrings, ParseI32, Clip, ModeForm, OpenForm;
  }

  /**
   Through proxy and provider, every operation runs on the backend in its normal form, once, and
   its caller gets the normal form of what a direct caller would see.  If the call throws there is no answer.
   */
  lemma CallTransparency<S(!new)>(fs: Backend<S>, s: S, id: u32, c: Call, out: Outs)
    requires Honest(fs) && !c.GetCreds?
    ensures var (s', r) := fs(s, Normal(c));
            var (s1, answer) := Dispatch(fs, s, RequestMessage(id, c));
            && s1 == s' && (answer.Ok? <==> r.Ok?)
            && (r.Ok? ==> Finish(c, Arrived(answer.value), out)
                          == Seen(out, NormalOutcome(Direct(Normal(c), r.value))))
  {
    hide EncodeFields, MessageOf, ReplyFields, ParseReply, Direct, NormalOutcome, Dispatch, IdOf, TypeCode, Seen;
    RequestIsServed(fs, s, id, c);
    if fs(s, Normal(c)).1.Ok? {
      var reply := fs(s, Normal(c)).1.value;
      var fields := ReplyFields(Normal(c), reply);
      HeaderOf(id, ResponseType(TypeCode(c)), fields);
      NormalKeepsKind(c);
      ReplyArrives(Normal(c), reply, []);
      assert EncodeFields(fields) + [] == EncodeFields(fields);
      SameReply(c, EncodeFields(fields));
    }
  }

  lemma NormalKeepsKind(c: Call)
    ensures Normal(c).GetCreds? == c.GetCreds? && TypeCode(Normal(c)) == TypeCode(c)
  {
  }

  /** A caller can tell two out-values apart once they are stored. */
  lemma StoredApart(out: Outs, o: Outcome)
    requires o.payload.Content? ==> FitsPayload(o.payload)
    ensures Seen(out, NormalOutcome(o)) == Seen(out, o) <==> NormalOutcome(o) == o
  {
    hide Clip, ClipAll, NormalAttr, NormalStats;
    match o.payload
    case Content(d) => ClipIffShort(d);
    case Entries(l) =>
      var n := ClipAll(l[..|l| % TWO32]);
      if out.entries + n == out.entries + l {
        assert n == (out.entries + n)[|out.entries|..] == (out.entries + l)[|out.entries|..] == l;
      }
    case _ =>
  }

  /**
   With representable arguments and an out-value that fits, the remote call and the direct call
   are the same: same effect on the backend, same result, same out-value.
   */
  lemma TransparentWhenRepresentable<S(!new)>(fs: Backend<S>, s: S, id: u32, c: Call, out: Outs)
    requires Honest(fs) && !c.GetCreds? && Representable(c)
    ensures var (s', r) := fs(s, c);
            var (s1, answer) := Dispatch(fs, s, RequestMessage(id, c));
            && s1 == s' && (answer.Ok? <==> r.Ok?)
            && (r.Ok? ==>
                  var direct := Direct(c, r.value);
                  Finish(c, Arrived(answer.value), out) == Seen(out, direct) <==> FitsPayload(direct.payload))
  {
    hide Dispatch, Finish, Representable, Normal, RequestMessage, FitsPayload, Direct, NormalOutcome, Seen;
    CallTransparency(fs, s, id, c, out);
    NormalIffRepresentable(c);
    if fs(s, c).1.Ok? {
      var direct := Direct(c, fs(s, c).1.value);
      NormalOutcomeIffFits(direct);
      ReadsFit(c, fs(s, c).1.value);
      StoredApart(out, direct);
    }
  }

  lemma ReadsFit(c: Call, r: Reply)
    requires InBounds(c, r)
    ensures Direct(c, r).payload.Content? ==> FitsPayload(Direct(c, r).payload)
  {
  }

  /** What a backend that records its calls would have seen. */
  function Recorder(s: seq<Call>, c: Call): (seq<Call>, Result<Reply>) {
    (s + [c], Ok(Blank(c)))
  }

  function Blank(c: Call): (r: Reply)
    ensures InBounds(c, r)
  {
    Reply(0, BLANK.(buffer := seq(if c.Read? then c.size else 0, i => 0)))
  }

  /**
   Representability is also necessary: only for a representable call does every backend receive
   the call that was made.  In particular a device number reaches `mknod` intact only when it is 0.
   */
  lemma ArrivesUnchangedIffRepresentable(id: u32, c: Call)
    requires !c.GetCreds?
    ensures Honest(Recorder)
    ensures Dispatch(Recorder, [], RequestMessage(id, c)).0 == [c] <==> Representable(c)
  {
    hide Dispatch, Finish, Representable, Normal, RequestMessage, NormalOutcome;
    CallTransparency(Recorder, [], id, c, BLANK);
    NormalIffRepresentable(c);
    assert Recorder([], Normal(c)).0 == [Normal(c)];
  }

  /** The device of `mknod`: of the bytes the proxy sends the provider takes the high half. */
  lemma MknodDevice(id: u32, path: Bytes, mode: u32, dev: u64, more: Bytes)
    ensures ParseMessage(RequestMessage(id, Mknod(path, mode, dev)) + more)
            == Ok((id, 0x0c, Some(Mknod(Clip(path), ModeForm(mode), dev / TWO32))))
    ensures dev / TWO32 == dev <==> dev == 0
  {
    hide ParseMessage, RequestMessage, Clip, ModeForm;
    RequestIsRead(id, Mknod(path, mode, dev), more);
  }

  /** A handle arrives modulo 2^32, so the invalid handle of `filesystem_i` does not arrive as itself. */
  lemma InvalidHandleChanges(id: u32, path: Bytes, handle: u64, more: Bytes)
    ensures ParseMessage(RequestMessage(id, Release(path, handle)) + more)
            == Ok((id, 0x0e, Some(Release(Clip(path), handle % TWO32))))
    ensures handle % TWO32 == handle <==> handle < TWO32
    ensures handle == TWO64 - 1 ==> handle % TWO32 == TWO32 - 1
  {
    hide ParseMessage, RequestMessage, Clip;
    RequestIsRead(id, Release(path, handle), more);
  }

  /** Against this provider a positive read result is the number of bytes copied. */
  lemma ReadCopiesItsResult<S(!new)>(fs: Backend<S>, s: S, id: u32, c: Call, out: Outs)
    requires Honest(fs) && c.Read? && |out.buffer| == c.size && fs(s, Normal(c)).1.Ok?
    ensures Dispatch(fs, s, RequestMessage(id, c)).1.Ok?
    ensures var n := fs(s, Normal(c)).1.value.result;
            var r := Finish(c, Arrived(Dispatch(fs, s, RequestMessage(id, c)).1.value), out);
            && r.result == n
            && (n <= 0 ==> r.out == out)
            && (n > 0 ==> n <= c.size
                          && r.out == out.(buffer := fs(s, Normal(c)).1.value.out.buffer[..n] + out.buffer[n..]))
  {
    hide Dispatch, Finish, RequestMessage;
    CallTransparency(fs, s, id, c, out);
    var r := fs(s, Normal(c)).1.value;
    assert InBounds(Normal(c), r);
    if r.result > 0 { ClipIffShort(r.out.buffer[..r.result]); }
  }
}
