/**
 The service's `filesystem`: each operation writes a request, waits for the exchange to
 end one way or another, and reads the response or falls back on the empty filesystem.
 */
module Proxy {
  import opened Bytes
  import opened Flags
  import opened Codec
  import opened Message
  import opened Calls
  import opened Remote

  /** The operations that send four fields or more. */
  method WriteLongRequest(c: Call, writer: Writer)
    requires writer.Valid() && writer.fields == [] && (c.Read? || c.Write? || c.Utimens?)
    modifies writer
    ensures writer.Valid() && writer.fields == RequestFields(c) && writer.id == old(writer.id)
  {
    hide MessageOf, ModeForm;
    match c
    case Read(path, size, offset, handle) =>
      writer.WriteData(path);
      writer.WriteU32(size % TWO32);
      writer.WriteU64(offset);
      writer.WriteU64(handle);
    case Write(path, content, offset, handle) =>
      writer.WriteData(path);
      writer.WriteData(content);
      writer.WriteU64(offset);
      writer.WriteU64(handle);
    case Utimens(path, atime, mtime, handle) =>
      writer.WriteData(path);
      writer.WriteTime(atime);
      writer.WriteTime(mtime);
      writer.WriteU64(handle);
  }

  /** The other operations that send a 64-bit field. */
  method WriteWideRequest(c: Call, writer: Writer)
    requires writer.Valid() && writer.fields == [] && (c.Truncate? || c.Fsync? || c.Mknod? || c.Release?)
    modifies writer
    ensures writer.Valid() && writer.fields == RequestFields(c) && writer.id == old(writer.id)
  {
    hide MessageOf, ModeForm;
    match c
    case Truncate(path, length, handle) =>
      writer.WriteData(path);
      writer.WriteU64(length);
      writer.WriteU64(handle);
    case Fsync(path, sync, handle) =>
      writer.WriteData(path);
      writer.WriteBool(sync);
      writer.WriteU64(handle);
    case Mknod(path, mode, dev) =>
      writer.WriteData(path);
      writer.WriteMode(mode);
      writer.WriteU64(dev);
    case Release(path, handle) => writer.WriteData(path); writer.WriteU64(handle);
  }

  /** The writes at the start of each operation; `writer` is new. */
  method WriteRequest(c: Call, writer: Writer)
    requires writer.Valid() && writer.fields == []
    modifies writer
    ensures writer.Valid() && writer.fields == RequestFields(c) && writer.id == old(writer.id)
  {
    hide MessageOf, SentWord, ModeForm, AccessForm, RenameForm, TimeFields;
    if c.Read? || c.Write? || c.Utimens? {
      WriteLongRequest(c, writer);
      return;
    }
    if c.Truncate? || c.Fsync? || c.Mknod? || c.Release? {
      WriteWideRequest(c, writer);
      return;
    }
    match c
    case Access(path, mode) => writer.WriteData(path); writer.WriteAccessMode(mode);
    case GetAttr(path) => writer.WriteData(path);
    case ReadLink(path) => writer.WriteData(path);
    case Symlink(target, linkPath) => writer.WriteData(target); writer.WriteData(linkPath);
    case Link(oldPath, newPath) => writer.WriteData(oldPath); writer.WriteData(newPath);
    case Rename(oldPath, newPath, flags) =>
      writer.WriteData(oldPath);
      writer.WriteData(newPath);
      writer.WriteRenameFlags(flags);
    case Chmod(path, mode) => writer.WriteData(path); writer.WriteMode(mode);
    case Chown(path, uid, gid) =>
      writer.WriteData(path);
      writer.WriteU32(uid);
      writer.WriteU32(gid);
    case Open(path, flags) => writer.WriteData(path); writer.WriteOpenFlags(flags);
    case Create(path, mode) => writer.WriteData(path); writer.WriteMode(mode);
    case Unlink(path) => writer.WriteData(path);
    case Mkdir(path, mode) => writer.WriteData(path); writer.WriteMode(mode);
    case ReadDir(path) => writer.WriteData(path);
    case Rmdir(path) => writer.WriteData(path);
    case StatFs(path) => writer.WriteData(path);
    case _ =>
  }

  /** The request of an operation as the service stores it, still with identifier 0. */
  method BuildRequest(headroom: nat, c: Call) returns (message: Bytes)
    ensures message == RequestMessage(0, c)
  {
    var writer := new Writer(headroom, TypeCode(c));
    WriteRequest(c, writer);
    message := writer.GetData();
  }

  /** The out-values that are stored part by part. */
  method ReadParts(c: Call, out: Outs, reader: Reader) returns (ok: bool, after: Outs)
    requires reader.Valid() && (c.GetAttr? || c.ReadDir? || c.StatFs?)
    modifies reader
    ensures ok <==> ParsePayload(c, 0, old(reader.Rest())).Ok?
    ensures after == if ok then Stored(out, ParsePayload(c, 0, old(reader.Rest())).value)
                     else FilledParts(c, old(reader.Rest()), out)
  {
    hide ParseAttr, ParseStats, ParseStrings, FillAttr, FillStats, WholeEntries;
    ghost var d := reader.Rest();
    after := out;
    match c
    case GetAttr(_) =>
      FilledIsParsed(out.attr, d);
      var a;
      ok, a := reader.ReadAttr(after.attr);
      after := after.(attr := a);
    case ReadDir(_) =>
      var l;
      ok, l := reader.ReadStrings(after.entries);
      after := after.(entries := l);
    case StatFs(_) =>
      FilledStatsAreParsed(out.stats, d);
      var s;
      ok, s := reader.ReadStatistics(after.stats);
      after := after.(stats := s);
  }

  /**
   The reads at the end of each operation, which store what they read in the caller's variables; `after` is what these
   hold then, also when a read throws.
   */
  method ReadReply(c: Call, out: Outs, reader: Reader) returns (r: Result<i32>, after: Outs)
    requires reader.Valid()
    modifies reader
    ensures match ParseReply(c, old(reader.Rest()))
            case Ok(o) => r == Ok(o.result) && after == Stored(out, o.payload)
            case Throw => r == Throw && after == Filled(c, old(reader.Rest()), out)
  {
    hide DecodeData, DecodeU64, ParseAttr, ParseStats, ParseStrings, ParseI32, FillAttr, FillStats,
      WholeEntries;
    after := out;
    r := reader.ReadResult();
    if r.Throw? { return; }
    if c.Read? {
      if r.value > 0 {
        var data := reader.ReadBytes();
        if data.Throw? || |data.value| > c.size { return Throw, after; }
        after := Stored(after, Content(data.value));
      }
      return;
    }
    if r.value != 0 { return; }
    if c.GetAttr? || c.ReadDir? || c.StatFs? {
      var ok;
      ok, after := ReadParts(c, out, reader);
      if !ok { r := Throw; }
      return;
    }
    match c
    case ReadLink(_) =>
      var t := reader.ReadBytes();
      if t.Throw? { return Throw, after; }
      after := after.(text := t.value);
    case Open(_, _) =>
      var h := reader.ReadU64();
      if h.Throw? { return Throw, after; }
      after := after.(handle := h.value);
    case Create(_, _) =>
      var h := reader.ReadU64();
      if h.Throw? { return Throw, after; }
      after := after.(handle := h.value);
    case _ =>
  }

  /** The service's reads of identifier and type. */
  method PassHeader(reader: Reader)
    requires reader.Valid() && |reader.Rest()| >= 5
    modifies reader
    ensures reader.Valid() && reader.Rest() == old(reader.Rest())[5..]
  {
    hide U32Of;
    var id := reader.ReadU32();
    var kind := reader.ReadU8();
  }

  /**
   What an operation returns once its exchange has ended, and what its caller's variables hold then.  The service
   passes the response on with the cursor behind identifier and type; every exception leads to the fallback.
   */
  method Conclude(c: Call, a: Arrival, out: Outs) returns (reply: Reply)
    requires !c.GetCreds? && (a.Arrived? ==> |a.message| >= 5)
    ensures reply == Finish(c, a, out)
  {
    hide ParseReply, Filled, Stored, FallbackResult, RootAttr, IsRoot;
    var after := out;
    if a.Arrived? {
      var reader := new Reader(a.message);
      PassHeader(reader);
      var r;
      r, after := ReadReply(c, out, reader);
      if r.Ok? { return Reply(r.value, after); }
    }
    return FallbackOn(c, after);
  }
}
