/**
 The provider's message handler, step by step: decode a request, call the backend,
 encode the answer.
 */
module Provider {
  import opened Bytes
  import opened Codec
  import opened Message
  import opened Calls
  import opened Remote

  /** The reads at the start of the `fs_*` handler for request type `t`. */
  method ReadRequest(t: u8, reader: Reader) returns (r: Result<Call>)
    requires 1 <= t <= 0x17 && reader.Valid()
    modifies reader
    ensures r == ParseRequest(t, old(reader.Rest()))
  {
    hide DecodeData, ParseArguments;
    if t == 0x17 { return Ok(GetCreds); }
    var first :- reader.ReadBytes();
    if t == 0x04 || t == 0x05 || t == 0x06 {
      var second :- reader.ReadBytes();
      if t == 0x04 { return Ok(Symlink(first, second)); }
      if t == 0x05 { return Ok(Link(first, second)); }
      var flags :- reader.ReadU8();
      return Ok(Rename(first, second, flags));
    }
    r := ReadArguments(t, first, reader);
  }

  method ReadArguments(t: u8, path: Bytes, reader: Reader) returns (r: Result<Call>)
    requires 1 <= t < 0x17 && t != 0x04 && t != 0x05 && t != 0x06 && reader.Valid()
    modifies reader
    ensures r == ParseArguments(t, path, old(reader.Rest()))
  {
    hide DecodeData, DecodeU32, DecodeU64, ParseU8, ParseMode, ParseOpenFlags, ParseAccessMode, ParseTime,
      ParseBool;
    match t
    case 0x01 => var mode :- reader.ReadAccessMode(); return Ok(Access(path, mode));
    case 0x02 => return Ok(GetAttr(path));
    case 0x03 => return Ok(ReadLink(path));
    case 0x07 => var mode :- reader.ReadMode(); return Ok(Chmod(path, mode));
    case 0x08 =>
      var uid :- reader.ReadU32();
      var gid :- reader.ReadU32();
      return Ok(Chown(path, uid, gid));
    case 0x09 =>
      var length :- reader.ReadU64();
      var handle :- reader.ReadU64();
      return Ok(Truncate(path, length, handle));
    case 0x0a =>
      var sync :- reader.ReadBool();
      var handle :- reader.ReadU64();
      return Ok(Fsync(path, sync, handle));
    case 0x0b => var flags :- reader.ReadOpenFlags(); return Ok(Open(path, flags));
    case 0x0c =>
      var mode :- reader.ReadMode();
      var dev :- reader.ReadU32();
      return Ok(Mknod(path, mode, dev));
    case 0x0d => var mode :- reader.ReadMode(); return Ok(Create(path, mode));
    case 0x0e => var handle :- reader.ReadU64(); return Ok(Release(path, handle));
    case 0x0f => return Ok(Unlink(path));
    case 0x10 =>
      var size :- reader.ReadU32();
      var offset :- reader.ReadU64();
      var handle :- reader.ReadU64();
      return Ok(Read(path, size, offset, handle));
    case 0x11 =>
      var content :- reader.ReadBytes();
      var offset :- reader.ReadU64();
      var handle :- reader.ReadU64();
      return Ok(Write(path, content, offset, handle));
    case 0x12 => var mode :- reader.ReadMode(); return Ok(Mkdir(path, mode));
    case 0x13 => return Ok(ReadDir(path));
    case 0x14 => return Ok(Rmdir(path));
    case 0x15 => return Ok(StatFs(path));
    case 0x16 =>
      var atime :- reader.ReadTime();
      var mtime :- reader.ReadTime();
      var handle :- reader.ReadU64();
      return Ok(Utimens(path, atime, mtime, handle));
  }

  /** The writes at the end of the handlers: the result, and the out-value where the result says so. */
  method WriteReply(c: Call, reply: Reply, writer: Writer)
    requires InBounds(c, reply) && writer.Valid() && writer.fields == []
    modifies writer
    ensures writer.Valid() && writer.fields == ReplyFields(c, reply) && writer.id == old(writer.id)
  {
    hide Writer.Valid, AttrFields, StatsFields;
    if c.GetCreds? {
      writer.WriteData(reply.out.text);
      return;
    }
    writer.WriteI32(reply.result);
    if c.Read? {
      if 0 < reply.result { writer.WriteData(reply.out.buffer[..reply.result]); }
    } else if reply.result == 0 {
      match c
      case GetAttr(_) => writer.WriteAttr(reply.out.attr);
      case ReadLink(_) => writer.WriteData(reply.out.text);
      case Open(_, _) => writer.WriteU64(reply.out.handle);
      case Create(_, _) => writer.WriteU64(reply.out.handle);
      case ReadDir(_) => writer.WriteStrings(reply.out.entries);
      case StatFs(_) => writer.WriteStatistics(reply.out.stats);
      case _ =>
    }
  }

  /** Identifier and type of a message and, for a known type, what its handler reads. */
  method ReadMessage(message: Bytes) returns (r: Result<(u32, u8, Option<Call>)>)
    ensures r == ParseMessage(message) && (r.Ok? ==> (r.value.2.None? <==> r.value.1 == 0))
  {
    hide ParseRequest, DecodeU32, ParseU8, U32Bytes, U32Of;
    var reader := new Reader(message);
    var id :- reader.ReadU32();
    var code :- reader.ReadU8();
    var t := RequestType(code);
    if t == 0 { return Ok((id, t, None)); }
    var c :- ReadRequest(t, reader);
    return Ok((id, t, Some(c)));
  }

  class Provider<S(!new)> {
    const fs: Backend<S>
    const headroom: nat
    var state: S

    constructor (fs: Backend<S>, headroom: nat, initial: S)
      ensures this.fs == fs && this.headroom == headroom && state == initial
    {
      this.fs := fs;
      this.headroom := headroom;
      state := initial;
    }

    /** The rest of a handler: the backend runs the call, and its answer is written unless it throws. */
    method Handle(c: Call, writer: Writer) returns (r: Result<()>)
      requires Honest(fs) && writer.Valid() && writer.fields == []
      modifies `state, writer
      ensures state == fs(old(state), c).0 && (r.Ok? <==> fs(old(state), c).1.Ok?)
      ensures r.Ok? ==>
                && writer.Valid() && writer.fields == ReplyFields(c, fs(old(state), c).1.value)
                && writer.id == old(writer.id)
    {
      hide ReplyFields, InBounds, Writer.Valid;
      var (s', result) := fs(state, c);
      state := s';
      var reply :- result;
      WriteReply(c, reply, writer);
      return Ok(());
    }

    /**
     `on_message`, called with the reassembled request; what it throws the client callback catches.  Nothing runs
     when decoding throws, but what a throwing handler has done to the backend stays done.
     */
    method OnMessage(message: Bytes) returns (r: Result<Bytes>)
      requires Honest(fs)
      modifies `state
      ensures (state, r) == Dispatch(fs, old(state), message)
    {
      hide MessageOf, ReplyFields, ParseMessage, Honest, Writer.Valid;
      var request :- ReadMessage(message);
      var (id, t, call) := request;
      var writer := new Writer(headroom, ResponseType(t));
      writer.SetId(id);
      if call.Some? {
        var done :- Handle(call.value, writer);
      }
      var answer := writer.GetData();
      return Ok(answer);
    }
  }
}
