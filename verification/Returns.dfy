/**
 What comes back to a caller, member by member: from the bytes of a response, and from the backend through both sides.
 */
module Returns {
  import opened Bytes
  import opened Flags
  import opened Codec
  import opened Message
  import opened Calls
  import opened Remote

  // ----- From the bytes of a response -----

  /** The proxy reads the result and goes on behind it. */
  lemma Opens(c: Call, id: u32, kind: u8, w: u32, fields: seq<Field>, out: Outs)
    requires !c.GetCreds?
    ensures var a := Arrived(MessageOf(id, kind, [U32(w)] + fields));
            && HasBody(a)
            && ParseI32(a.message[5..]) == Ok((U32ToI32(w), EncodeFields(fields)))
  {
    hide EncodeField, EncodeFields, MessageOf, DecodeU32, U32Of, IdOf;
    HeaderOf(id, kind, [U32(w)] + fields);
    SpreadMore(U32(w), fields, []);
    assert EncodeFields([U32(w)] + fields) + [] == EncodeFields([U32(w)] + fields);
    assert EncodeFields(fields) + [] == EncodeFields(fields);
    U32Arrives(w, EncodeFields(fields));
  }

  /** The same for a single value behind the result. */
  lemma OpensOne(c: Call, id: u32, kind: u8, w: u32, f: Field, out: Outs)
    requires !c.GetCreds?
    ensures var a := Arrived(MessageOf(id, kind, [U32(w), f]));
            && HasBody(a)
            && ParseI32(a.message[5..]) == Ok((U32ToI32(w), EncodeField(f) + []))
  {
    hide EncodeField, EncodeFields, MessageOf, DecodeU32, U32Of, IdOf, ParseI32;
    assert [U32(w)] + [f] == [U32(w), f];
    Opens(c, id, kind, w, [f], out);
    Spread1(f, []);
    assert EncodeFields([f]) + [] == EncodeFields([f]);
  }

  /** A response that reports a failure, and any response to an operation without an out-parameter, changes nothing. */
  lemma ResultReturns(id: u32, kind: u8, c: Call, w: u32, more: seq<Field>, out: Outs)
    requires !c.GetCreds?
    requires c.Read? ==> w == 0 || w >= 0x8000_0000
    requires w == 0 ==> !c.GetAttr? && !c.ReadLink? && !c.Open? && !c.Create? && !c.ReadDir? && !c.StatFs?
    ensures Finish(c, Arrived(MessageOf(id, kind, [U32(w)] + more)), out)
            == Reply(if w < 0x8000_0000 then w else w - 0x1_0000_0000, out)
  {
    hide EncodeFields, MessageOf, ParseI32;
    Opens(c, id, kind, w, more, out);
  }

  /** All fourteen members of the attributes arrive in the caller's structure, each in its own place. */
  lemma AttributesReturn(
      id: u32, path: Bytes, out: Outs, ino: u64, nlink: u64, mode: u32, uid: u32, gid: u32, rdev: u64, size: u64,
      blocks: u64, asec: u64, ansec: u32, msec: u64, mnsec: u32, csec: u64, cnsec: u32)
    ensures Finish(GetAttr(path),
                   Arrived(MessageOf(id, 0x82,
                                     [U32(0)]
                                     + [U64(ino), U64(nlink), U32(mode), U32(uid), U32(gid), U64(rdev), U64(size),
                                        U64(blocks), U64(asec), U32(ansec), U64(msec), U32(mnsec), U64(csec),
                                        U32(cnsec)])),
                   out)
            == Reply(0, Outs(Attr(AttrHead(ino % TWO32, nlink % TWO32, ModeForm(mode), uid, gid, rdev % TWO32,
                                           size % TWO32, blocks % TWO32),
                                  Time(asec % TWO32, ansec), Time(msec % TWO32, mnsec), Time(csec % TWO32, cnsec)),
                             out.text, out.handle, out.buffer, out.entries, out.stats))
  {
    hide EncodeFields, DecodeFields, MessageOf, ParseI32, ModeForm, ParseAttr;
    var fs := [U64(ino), U64(nlink), U32(mode), U32(uid), U32(gid), U64(rdev), U64(size), U64(blocks),
               U64(asec), U32(ansec), U64(msec), U32(mnsec), U64(csec), U32(cnsec)];
    Opens(GetAttr(path), id, 0x82, 0, fs, out);
    assert TypesOf(fs) == ATTR_TYPES;
    MembersReturn(fs);
  }

  lemma MembersReturn(fs: seq<Field>)
    requires TypesOf(fs) == ATTR_TYPES
    ensures Typed(ReceivedAll(fs), ATTR_TYPES) && ParseAttr(EncodeFields(fs)) == Ok((AttrOf(ReceivedAll(fs)), []))
  {
    hide EncodeFields, DecodeFields;
    forall i | 0 <= i < 14 ensures TypeOf(fs[i]) == ATTR_TYPES[i] { assert TypesOf(fs)[i] == ATTR_TYPES[i]; }
    RoundTrip(fs, []);
    assert EncodeFields(fs) + [] == EncodeFields(fs);
  }

  /** The eight members of the statistics. */
  lemma StatisticsReturn(
      id: u32, path: Bytes, out: Outs, bsize: u64, frsize: u64, blocks: u64, bfree: u64, bavail: u64, files: u64,
      ffree: u64, namemax: u64)
    ensures Finish(StatFs(path),
                   Arrived(MessageOf(id, 0x95,
                                     [U32(0)]
                                     + [U64(bsize), U64(frsize), U64(blocks), U64(bfree), U64(bavail), U64(files),
                                        U64(ffree), U64(namemax)])),
                   out)
            == Reply(0, Outs(out.attr, out.text, out.handle, out.buffer, out.entries,
                             Stats(bsize % TWO32, frsize % TWO32, blocks % TWO32, bfree % TWO32, bavail % TWO32,
                                   files % TWO32, ffree % TWO32, namemax % TWO32)))
  {
    hide EncodeFields, DecodeFields, MessageOf, ParseI32;
    var fs := [U64(bsize), U64(frsize), U64(blocks), U64(bfree), U64(bavail), U64(files), U64(ffree), U64(namemax)];
    Opens(StatFs(path), id, 0x95, 0, fs, out);
    RoundTrip(fs, []);
    assert EncodeFields(fs) + [] == EncodeFields(fs);
    assert TypesOf(fs) == STATS_TYPES;
  }

  lemma LinkReturns(id: u32, path: Bytes, out: Outs, target: Bytes)
    ensures Finish(ReadLink(path), Arrived(MessageOf(id, 0x83, [U32(0), Data(target)])), out)
            == Reply(0, Outs(out.attr, target[..|target| % TWO32], out.handle, out.buffer, out.entries, out.stats))
  {
    hide EncodeField, DecodeData, MessageOf, ParseI32;
    OpensOne(ReadLink(path), id, 0x83, 0, Data(target), out);
    DataArrives(target, []);
  }

  /** The handle of `open` and `create`; both responses look alike but for their type. */
  lemma HandleReturns(id: u32, kind: u8, c: Call, out: Outs, handle: u64)
    requires c.Open? || c.Create?
    ensures Finish(c, Arrived(MessageOf(id, kind, [U32(0), U64(handle)])), out)
            == Reply(0, Outs(out.attr, out.text, handle % TWO32, out.buffer, out.entries, out.stats))
  {
    hide EncodeField, DecodeU64, MessageOf, ParseI32;
    OpensOne(c, id, kind, 0, U64(handle), out);
    U64Arrives(handle, []);
  }

  /** A listing is appended to the caller's list. */
  lemma ListingReturns(id: u32, path: Bytes, out: Outs, names: seq<Bytes>)
    requires |names| < TWO32 && forall s | s in names :: |s| < TWO32
    ensures Finish(ReadDir(path), Arrived(MessageOf(id, 0x93, [U32(0), Strings(names)])), out)
            == Reply(0, Outs(out.attr, out.text, out.handle, out.buffer, out.entries + names, out.stats))
  {
    hide EncodeField, ParseStrings, MessageOf, ParseI32, ClipAll;
    OpensOne(ReadDir(path), id, 0x93, 0, Strings(names), out);
    EntriesArrive(names, []);
    ReceivedIffFits(Strings(names));
  }

  /** The bytes of a read go to the front of the caller's buffer; more bytes than were asked for are a bad handle. */
  lemma BytesReturn(id: u32, path: Bytes, offset: u64, handle: u64, out: Outs, n: u32, content: Bytes)
    requires 0 < n < 0x8000_0000 && |out.buffer| < TWO64 && |content| < TWO32
    ensures Finish(Read(path, |out.buffer|, offset, handle), Arrived(MessageOf(id, 0x90, [U32(n), Data(content)])), out)
            == if |content| <= |out.buffer|
               then Reply(n, Outs(out.attr, out.text, out.handle, content + out.buffer[|content|..], out.entries,
                                  out.stats))
               else Reply(-9, out)
  {
    hide EncodeField, DecodeData, MessageOf, ParseI32;
    OpensOne(Read(path, |out.buffer|, offset, handle), id, 0x90, n, Data(content), out);
    DataArrives(content, []);
    ClipIffShort(content);
  }

  // ----- From the backend, through both sides -----

  /** What the remote caller of `c` is left with when the service judges the answer of the provider. */
  function Caller<S(!new)>(fs: Backend<S>, s: S, id: u32, c: Call, out: Outs): (e: Reply)
    requires Honest(fs) && !c.GetCreds? && fs(s, Normal(c)).1.Ok?
    ensures Dispatch(fs, s, RequestMessage(id, c)).1.Ok?
    ensures e == Finish(c, Arrived(Dispatch(fs, s, RequestMessage(id, c)).1.value), out)
  {
    CallTransparency(fs, s, id, c, out);
    Finish(c, Arrived(Dispatch(fs, s, RequestMessage(id, c)).1.value), out)
  }

  /** The backend's result is the caller's, and with a failure or a result alone the caller's variables stay. */
  lemma RemoteResult<S(!new)>(fs: Backend<S>, s: S, id: u32, c: Call, out: Outs)
    requires Honest(fs) && !c.GetCreds? && fs(s, Normal(c)).1.Ok?
    ensures var r, e := fs(s, Normal(c)).1.value, Caller(fs, s, id, c, out);
            && e.result == r.result
            && ((if c.Read? then r.result <= 0
                 else r.result != 0
                      || !(c.GetAttr? || c.ReadLink? || c.Open? || c.Create? || c.ReadDir? || c.StatFs?))
                ==> e.out == out)
  {
    hide Dispatch, Finish, RequestMessage, NormalAttr, NormalStats, Clip, ClipAll;
    CallTransparency(fs, s, id, c, out);
  }

  /** A successful `open` or `create` gives the backend's handle. */
  lemma RemoteHandle<S(!new)>(fs: Backend<S>, s: S, id: u32, c: Call, out: Outs)
    requires Honest(fs) && (c.Open? || c.Create?)
    requires fs(s, Normal(c)).1.Ok? && fs(s, Normal(c)).1.value.result == 0
    ensures var handle, e := fs(s, Normal(c)).1.value.out.handle, Caller(fs, s, id, c, out).out;
            e == Outs(out.attr, out.text, handle % TWO32, out.buffer, out.entries, out.stats)
  {
    hide Dispatch, Finish, RequestMessage, Normal, Direct, NormalOutcome, Seen;
    CallTransparency(fs, s, id, c, out);
    HandleSeen(c, fs(s, Normal(c)).1.value, out);
  }

  lemma HandleSeen(c: Call, r: Reply, out: Outs)
    requires (c.Open? || c.Create?) && r.result == 0
    ensures Seen(out, NormalOutcome(Direct(Normal(c), r)))
            == Reply(0, Outs(out.attr, out.text, r.out.handle % TWO32, out.buffer, out.entries, out.stats))
  {
    hide OpenForm, ModeForm, Clip;
  }

  /** A successful `readlink` gives the backend's target. */
  lemma RemoteLink<S(!new)>(fs: Backend<S>, s: S, id: u32, path: Bytes, out: Outs)
    requires Honest(fs) && fs(s, ReadLink(Clip(path))).1.Ok? && fs(s, ReadLink(Clip(path))).1.value.result == 0
    ensures var target, e := fs(s, ReadLink(Clip(path))).1.value.out.text, Caller(fs, s, id, ReadLink(path), out).out;
            e == Outs(out.attr, Clip(target), out.handle, out.buffer, out.entries, out.stats)
  {
    hide Dispatch, Finish, RequestMessage;
    CallTransparency(fs, s, id, ReadLink(path), out);
  }

  /** A successful listing appends the backend's names to the caller's. */
  lemma RemoteListing<S(!new)>(fs: Backend<S>, s: S, id: u32, path: Bytes, out: Outs)
    requires Honest(fs) && fs(s, ReadDir(Clip(path))).1.Ok? && fs(s, ReadDir(Clip(path))).1.value.result == 0
    ensures var names, e := fs(s, ReadDir(Clip(path))).1.value.out.entries, Caller(fs, s, id, ReadDir(path), out);
            |names| < TWO32 && (forall s | s in names :: |s| < TWO32) ==>
              e.out == Outs(out.attr, out.text, out.handle, out.buffer, out.entries + names, out.stats)
  {
    hide Dispatch, Finish, RequestMessage, ClipAll, Clip;
    CallTransparency(fs, s, id, ReadDir(path), out);
    ReceivedIffFits(Strings(fs(s, ReadDir(Clip(path))).1.value.out.entries));
  }

  /** A successful `getattr` gives the backend's attributes, every member its own. */
  lemma RemoteAttributes<S(!new)>(fs: Backend<S>, s: S, id: u32, path: Bytes, out: Outs)
    requires Honest(fs) && fs(s, GetAttr(Clip(path))).1.Ok? && fs(s, GetAttr(Clip(path))).1.value.result == 0
    ensures var a, e := fs(s, GetAttr(Clip(path))).1.value.out.attr, Caller(fs, s, id, GetAttr(path), out).out;
            && e == Outs(e.attr, out.text, out.handle, out.buffer, out.entries, out.stats)
            && e.attr.head.ino == a.head.ino % TWO32 && e.attr.head.nlink == a.head.nlink % TWO32
            && e.attr.head.mode == ModeForm(a.head.mode)
            && e.attr.head.uid == a.head.uid && e.attr.head.gid == a.head.gid
            && e.attr.head.rdev == a.head.rdev % TWO32
            && e.attr.head.size == a.head.size % TWO32 && e.attr.head.blocks == a.head.blocks % TWO32
            && e.attr.atime.sec == a.atime.sec % TWO32 && e.attr.atime.nsec == a.atime.nsec % TWO32
            && e.attr.mtime.sec == a.mtime.sec % TWO32 && e.attr.mtime.nsec == a.mtime.nsec % TWO32
            && e.attr.ctime.sec == a.ctime.sec % TWO32 && e.attr.ctime.nsec == a.ctime.nsec % TWO32
  {
    hide Dispatch, Finish, RequestMessage, ModeForm, Clip;
    CallTransparency(fs, s, id, GetAttr(path), out);
  }

  /** A successful `statfs` gives the backend's statistics, every member its own. */
  lemma RemoteStatistics<S(!new)>(fs: Backend<S>, s: S, id: u32, path: Bytes, out: Outs)
    requires Honest(fs) && fs(s, StatFs(Clip(path))).1.Ok? && fs(s, StatFs(Clip(path))).1.value.result == 0
    ensures var t, e := fs(s, StatFs(Clip(path))).1.value.out.stats, Caller(fs, s, id, StatFs(path), out).out;
            && e == Outs(out.attr, out.text, out.handle, out.buffer, out.entries, e.stats)
            && e.stats.bsize == t.bsize % TWO32 && e.stats.frsize == t.frsize % TWO32
            && e.stats.blocks == t.blocks % TWO32 && e.stats.bfree == t.bfree % TWO32
            && e.stats.bavail == t.bavail % TWO32 && e.stats.files == t.files % TWO32
            && e.stats.ffree == t.ffree % TWO32 && e.stats.namemax == t.namemax % TWO32
  {
    hide Dispatch, Finish, RequestMessage, Clip;
    CallTransparency(fs, s, id, StatFs(path), out);
  }

  // ----- From the fallback -----

  /**
   Without a usable response the caller sees an empty filesystem: a root directory with mode 0555 and nothing in it,
   where nothing can be opened or changed.
   */
  lemma EmptyFilesystem(c: Call, out: Outs)
    requires !c.GetCreds?
    ensures var e := FallbackOn(c, out);
            && e.result <= 0
            && (e.result == 0 <==>
                  c.Fsync? || c.Release? || ((c.Access? || c.GetAttr? || c.ReadDir?) && c.path == [0x2f]))
            && (e.result == -1 <==> c.Chmod? || c.Chown? || c.Truncate? || c.Mknod? || c.Create? || c.Unlink?
                                    || c.Mkdir? || c.Rmdir?)
            && (e.result == -9 <==> c.Read? || c.Write?)
            && (e.result == -38 <==> c.Utimens? || c.StatFs?)
            && e.result in {0, -1, -2, -9, -38}
            && (if c.GetAttr? && c.path == [0x2f]
                then && e.out == out.(attr := out.attr.(head := e.out.attr.head))
                     && e.out.attr.head == out.attr.head.(ino := 1, nlink := 1, mode := e.out.attr.head.mode)
                     && TypeField(e.out.attr.head.mode) == 4 && e.out.attr.head.mode % 0x1000 == 0x16D
                else e.out == out)
  {
    if c.GetAttr? && c.path == [0x2f] { RootIsDirectory(); }
  }

  lemma RootIsDirectory()
    ensures TypeField(0x416D) == 4 && 0x416D % 0x1000 == 0x16D
  {
  }
}
