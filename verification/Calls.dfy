/**
 The filesystem operations as they travel: what the proxy writes, what the provider
 reads, and what comes back.
 */
module Calls {
  import opened Bytes
  import opened Flags
  import opened Codec
  import opened Message

  /** One operation of `filesystem_i` with its arguments. */
  datatype Call =
    | Access(path: Bytes, accessMode: u32)
    | GetAttr(path: Bytes)
    | ReadLink(path: Bytes)
    | Symlink(target: Bytes, linkPath: Bytes)
    | Link(oldPath: Bytes, newPath: Bytes)
    | Rename(oldPath: Bytes, newPath: Bytes, renameFlags: u32)
    | Chmod(path: Bytes, mode: u32)
    | Chown(path: Bytes, uid: u32, gid: u32)
    | Truncate(path: Bytes, length: u64, handle: u64)
    | Fsync(path: Bytes, isDataSync: bool, handle: u64)
    | Open(path: Bytes, flags: Word)
    | Mknod(path: Bytes, mode: u32, dev: u64)
    | Create(path: Bytes, mode: u32)
    | Release(path: Bytes, handle: u64)
    | Unlink(path: Bytes)
    | Read(path: Bytes, size: u64, offset: u64, handle: u64)
    | Write(path: Bytes, content: Bytes, offset: u64, handle: u64)
    | Mkdir(path: Bytes, mode: u32)
    | ReadDir(path: Bytes)
    | Rmdir(path: Bytes)
    | StatFs(path: Bytes)
    | Utimens(path: Bytes, atime: Time, mtime: Time, handle: u64)
    | GetCreds

  /** `request_type`: 0x01 to 0x17. */
  function TypeCode(c: Call): (t: u8)
    ensures 1 <= t <= 0x17
  {
    match c
    case Access(_, _) => 0x01
    case GetAttr(_) => 0x02
    case ReadLink(_) => 0x03
    case Symlink(_, _) => 0x04
    case Link(_, _) => 0x05
    case Rename(_, _, _) => 0x06
    case Chmod(_, _) => 0x07
    case Chown(_, _, _) => 0x08
    case Truncate(_, _, _) => 0x09
    case Fsync(_, _, _) => 0x0a
    case Open(_, _) => 0x0b
    case Mknod(_, _, _) => 0x0c
    case Create(_, _) => 0x0d
    case Release(_, _) => 0x0e
    case Unlink(_) => 0x0f
    case Read(_, _, _, _) => 0x10
    case Write(_, _, _, _) => 0x11
    case Mkdir(_, _) => 0x12
    case ReadDir(_) => 0x13
    case Rmdir(_) => 0x14
    case StatFs(_) => 0x15
    case Utimens(_, _, _, _) => 0x16
    case GetCreds => 0x17
  }

  /** `get_request_type`: the known codes stand for themselves, everything else is `unknown`. */
  function RequestType(code: u8): u8 {
    if 1 <= code <= 0x17 then code else 0
  }

  /** `get_response_type`: the request code with its top bit set. */
  function ResponseType(request: u8): u8
    requires request <= 0x17
  {
    0x80 + request
  }

  // ----- Requests -----

  /** The fields each operation of the proxy writes after the header. */
  function RequestFields(c: Call): seq<Field> {
    match c
    case Access(path, mode) => [Data(path), U8(AccessForm(mode))]
    case GetAttr(path) => [Data(path)]
    case ReadLink(path) => [Data(path)]
    case Symlink(target, linkPath) => [Data(target), Data(linkPath)]
    case Link(oldPath, newPath) => [Data(oldPath), Data(newPath)]
    case Rename(oldPath, newPath, flags) => [Data(oldPath), Data(newPath), U8(RenameForm(flags))]
    case Chmod(path, mode) => [Data(path), U32(ModeForm(mode))]
    case Chown(path, uid, gid) => [Data(path), U32(uid), U32(gid)]
    case Truncate(path, length, handle) => [Data(path), U64(length), U64(handle)]
    case Fsync(path, sync, handle) => [Data(path), U8(if sync then 1 else 0), U64(handle)]
    case Open(path, flags) => [Data(path), U32(SentWord(flags))]
    case Mknod(path, mode, dev) => [Data(path), U32(ModeForm(mode)), U64(dev)]
    case Create(path, mode) => [Data(path), U32(ModeForm(mode))]
    case Release(path, handle) => [Data(path), U64(handle)]
    case Unlink(path) => [Data(path)]
    case Read(path, size, offset, handle) => [Data(path), U32(size % TWO32), U64(offset), U64(handle)]
    case Write(path, content, offset, handle) => [Data(path), Data(content), U64(offset), U64(handle)]
    case Mkdir(path, mode) => [Data(path), U32(ModeForm(mode))]
    case ReadDir(path) => [Data(path)]
    case Rmdir(path) => [Data(path)]
    case StatFs(path) => [Data(path)]
    case Utimens(path, atime, mtime, handle) =>
      [Data(path)] + (TimeFields(atime) + (TimeFields(mtime) + [U64(handle)]))
    case GetCreds => []
  }

  /** The request message of a call. */
  function RequestMessage(id: u32, c: Call): Bytes {
    MessageOf(id, TypeCode(c), RequestFields(c))
  }

  /** What the provider reads for a request type. */
  function ParseRequest(t: u8, d: Bytes): Result<Call>
    requires 1 <= t <= 0x17
  {
    if t == 0x17 then Ok(GetCreds)
    else if t == 0x04 || t == 0x05 || t == 0x06 then
      var (a, r1) :- DecodeData(d);
      var (b, r2) :- DecodeData(r1);
      if t == 0x04 then Ok(Symlink(a, b))
      else if t == 0x05 then Ok(Link(a, b))
      else var (flags, r3) :- ParseU8(r2); Ok(Rename(a, b, flags))
    else
      var (path, r1) :- DecodeData(d);
      ParseArguments(t, path, r1)
  }

  function ParseArguments(t: u8, path: Bytes, d: Bytes): Result<Call>
    requires 1 <= t < 0x17 && t != 0x04 && t != 0x05 && t != 0x06
  {
    match t
    case 0x01 => var (mode, _) :- ParseAccessMode(d); Ok(Access(path, mode))
    case 0x02 => Ok(GetAttr(path))
    case 0x03 => Ok(ReadLink(path))
    case 0x07 => var (mode, _) :- ParseMode(d); Ok(Chmod(path, mode))
    case 0x08 =>
      var (uid, r1) :- DecodeU32(d);
      var (gid, _) :- DecodeU32(r1);
      Ok(Chown(path, uid, gid))
    case 0x09 =>
      var (length, r1) :- DecodeU64(d);
      var (handle, _) :- DecodeU64(r1);
      Ok(Truncate(path, length, handle))
    case 0x0a =>
      var (sync, r1) :- ParseBool(d);
      var (handle, _) :- DecodeU64(r1);
      Ok(Fsync(path, sync, handle))
    case 0x0b => var (flags, _) :- ParseOpenFlags(d); Ok(Open(path, flags))
    case 0x0c =>
      var (mode, r1) :- ParseMode(d);
      // the proxy wrote eight bytes here
      var (dev, _) :- DecodeU32(r1);
      Ok(Mknod(path, mode, dev))
    case 0x0d => var (mode, _) :- ParseMode(d); Ok(Create(path, mode))
    case 0x0e => var (handle, _) :- DecodeU64(d); Ok(Release(path, handle))
    case 0x0f => Ok(Unlink(path))
    case 0x10 =>
      var (size, r1) :- DecodeU32(d);
      var (offset, r2) :- DecodeU64(r1);
      var (handle, _) :- DecodeU64(r2);
      Ok(Read(path, size, offset, handle))
    case 0x11 =>
      var (content, r1) :- DecodeData(d);
      var (offset, r2) :- DecodeU64(r1);
      var (handle, _) :- DecodeU64(r2);
      Ok(Write(path, content, offset, handle))
    case 0x12 => var (mode, _) :- ParseMode(d); Ok(Mkdir(path, mode))
    case 0x13 => Ok(ReadDir(path))
    case 0x14 => Ok(Rmdir(path))
    case 0x15 => Ok(StatFs(path))
    case 0x16 =>
      var (atime, r1) :- ParseTime(d);
      var (mtime, r2) :- ParseTime(r1);
      var (handle, _) :- DecodeU64(r2);
      Ok(Utimens(path, atime, mtime, handle))
  }

  function NormalTime(t: Time): Time {
    Time(t.sec % TWO32, t.nsec % TWO32)
  }

  /** The call the backend receives for a call made on the proxy. */
  function Normal(c: Call): Call {
    match c
    case Access(path, mode) => Access(Clip(path), AccessForm(mode))
    case GetAttr(path) => GetAttr(Clip(path))
    case ReadLink(path) => ReadLink(Clip(path))
    case Symlink(target, linkPath) => Symlink(Clip(target), Clip(linkPath))
    case Link(oldPath, newPath) => Link(Clip(oldPath), Clip(newPath))
    case Rename(oldPath, newPath, flags) => Rename(Clip(oldPath), Clip(newPath), RenameForm(flags))
    case Chmod(path, mode) => Chmod(Clip(path), ModeForm(mode))
    case Chown(path, uid, gid) => Chown(Clip(path), uid, gid)
    case Truncate(path, length, handle) => Truncate(Clip(path), length % TWO32, handle % TWO32)
    case Fsync(path, sync, handle) => Fsync(Clip(path), sync, handle % TWO32)
    case Open(path, flags) => Open(Clip(path), OpenForm(flags))
    case Mknod(path, mode, dev) => Mknod(Clip(path), ModeForm(mode), dev / TWO32)
    case Create(path, mode) => Create(Clip(path), ModeForm(mode))
    case Release(path, handle) => Release(Clip(path), handle % TWO32)
    case Unlink(path) => Unlink(Clip(path))
    case Read(path, size, offset, handle) => Read(Clip(path), size % TWO32, offset % TWO32, handle % TWO32)
    case Write(path, content, offset, handle) =>
      Write(Clip(path), Clip(content), offset % TWO32, handle % TWO32)
    case Mkdir(path, mode) => Mkdir(Clip(path), ModeForm(mode))
    case ReadDir(path) => ReadDir(Clip(path))
    case Rmdir(path) => Rmdir(Clip(path))
    case StatFs(path) => StatFs(Clip(path))
    case Utimens(path, atime, mtime, handle) =>
      Utimens(Clip(path), NormalTime(atime), NormalTime(mtime), handle % TWO32)
    case GetCreds => GetCreds
  }

  predicate Short(s: Bytes) { |s| < TWO32 }

  predicate FitsTime(t: Time) { 0 <= t.sec < TWO32 && 0 <= t.nsec < TWO32 }

  /** The arguments that reach the backend unchanged. */
  predicate Representable(c: Call) {
    match c
    case Access(path, mode) => Short(path) && mode < 8
    case GetAttr(path) => Short(path)
    case ReadLink(path) => Short(path)
    case Symlink(target, linkPath) => Short(target) && Short(linkPath)
    case Link(oldPath, newPath) => Short(oldPath) && Short(newPath)
    case Rename(oldPath, newPath, flags) => Short(oldPath) && Short(newPath) && flags < 4
    case Chmod(path, mode) => Short(path) && KnownMode(mode)
    case Chown(path, uid, gid) => Short(path)
    case Truncate(path, length, handle) => Short(path) && length < TWO32 && handle < TWO32
    case Fsync(path, sync, handle) => Short(path) && handle < TWO32
    case Open(path, flags) => Short(path) && KnownFlags(LARGEFILE, flags)
    case Mknod(path, mode, dev) => Short(path) && KnownMode(mode) && dev == 0
    case Create(path, mode) => Short(path) && KnownMode(mode)
    case Release(path, handle) => Short(path) && handle < TWO32
    case Unlink(path) => Short(path)
    case Read(path, size, offset, handle) =>
      Short(path) && size < TWO32 && offset < TWO32 && handle < TWO32
    case Write(path, content, offset, handle) =>
      Short(path) && Short(content) && offset < TWO32 && handle < TWO32
    case Mkdir(path, mode) => Short(path) && KnownMode(mode)
    case ReadDir(path) => Short(path)
    case Rmdir(path) => Short(path)
    case StatFs(path) => Short(path)
    case Utimens(path, atime, mtime, handle) =>
      Short(path) && FitsTime(atime) && FitsTime(mtime) && handle < TWO32
    case GetCreds => true
  }

  predicate KnownMode(mode: u32) {
    mode < 0x1000 || (mode < 0x1_0000 && IsFileType(TypeField(mode)))
  }

  lemma ClipIffShort(s: Bytes)
    ensures Clip(s) == s <==> Short(s)
  {
    ReceivedIffFits(Data(s));
  }

  /** The operations that send flag words. */
  predicate SendsFlags(c: Call) {
    c.Access? || c.Rename? || c.Chmod? || c.Open? || c.Mknod? || c.Create? || c.Mkdir?
  }

  lemma FlagsIffRepresentable(c: Call)
    requires SendsFlags(c)
    ensures Normal(c) == c <==> Representable(c)
  {
    hide Clip, Short, OpenForm, KnownFlags, KnownMode, ModeForm;
    match c
    case Access(path, mode) => ClipIffShort(path);
    case Rename(oldPath, newPath, flags) => ClipIffShort(oldPath); ClipIffShort(newPath);
    case Chmod(path, mode) => ClipIffShort(path); ModeIffKnown(mode);
    case Open(path, flags) => ClipIffShort(path); OpenIffKnown(flags);
    case Mknod(path, mode, dev) => ClipIffShort(path); ModeIffKnown(mode);
    case Create(path, mode) => ClipIffShort(path); ModeIffKnown(mode);
    case Mkdir(path, mode) => ClipIffShort(path); ModeIffKnown(mode);
  }

  lemma ModeIffKnown(mode: u32)
    ensures ModeForm(mode) == mode <==> KnownMode(mode)
  {
    ModeFixed(mode);
  }

  /** A call arrives as it was made exactly when its arguments are representable. */
  lemma NormalIffRepresentable(c: Call)
    ensures Normal(c) == c <==> Representable(c)
  {
    hide Clip, Short, OpenForm, KnownFlags, KnownMode, ModeForm, AccessForm, RenameForm;
    if SendsFlags(c) {
      FlagsIffRepresentable(c);
    } else {
      if !c.Symlink? && !c.Link? && !c.GetCreds? { ClipIffShort(c.path); }
      match c
      case Symlink(target, linkPath) => ClipIffShort(target); ClipIffShort(linkPath);
      case Link(oldPath, newPath) => ClipIffShort(oldPath); ClipIffShort(newPath);
      case Write(path, content, offset, handle) => ClipIffShort(content);
      case _ =>
    }
  }

  // ----- A request arrives as its normal form -----

  lemma Spread1(a: Field, rest: Bytes)
    ensures EncodeFields([a]) + rest == EncodeField(a) + rest
  {
    hide EncodeField;
    EncodeSnoc([], a);
    assert [] + [a] == [a];
  }

  lemma SpreadMore(a: Field, more: seq<Field>, rest: Bytes)
    ensures EncodeFields([a] + more) + rest == EncodeField(a) + (EncodeFields(more) + rest)
  {
    hide EncodeField;
    assert ([a] + more)[1..] == more;
  }

  lemma Spread2(a: Field, b: Field, rest: Bytes)
    ensures EncodeFields([a, b]) + rest == EncodeField(a) + (EncodeField(b) + rest)
  {
    hide EncodeField, EncodeFields;
    SpreadMore(a, [b], rest);
    Spread1(b, rest);
    assert [a] + [b] == [a, b];
  }

  lemma Spread3(a: Field, b: Field, c: Field, rest: Bytes)
    ensures EncodeFields([a, b, c]) + rest == EncodeField(a) + (EncodeField(b) + (EncodeField(c) + rest))
  {
    hide EncodeField, EncodeFields;
    SpreadMore(a, [b, c], rest);
    Spread2(b, c, rest);
    assert [a] + [b, c] == [a, b, c];
  }

  lemma Spread4(a: Field, b: Field, c: Field, d: Field, rest: Bytes)
    ensures EncodeFields([a, b, c, d]) + rest
            == EncodeField(a) + (EncodeField(b) + (EncodeField(c) + (EncodeField(d) + rest)))
  {
    hide EncodeField, EncodeFields;
    SpreadMore(a, [b, c, d], rest);
    Spread3(b, c, d, rest);
    assert [a] + [b, c, d] == [a, b, c, d];
  }

  lemma U8Arrives(b: u8, rest: Bytes)
    ensures ParseU8(EncodeField(U8(b)) + rest) == Ok((b, rest))
  {
    assert ([b] + rest)[1..] == rest;
  }

  lemma U32Arrives(w: u32, rest: Bytes)
    ensures DecodeU32(EncodeField(U32(w)) + rest) == Ok((w, rest))
  {
    FieldRoundTrip(U32(w), rest);
  }

  lemma U64Arrives(q: u64, rest: Bytes)
    ensures DecodeU64(EncodeField(U64(q)) + rest) == Ok((q % TWO32, rest))
  {
    hide DecodeU64;
    U64RoundTrip(q, rest);
  }

  lemma DataArrives(s: Bytes, rest: Bytes)
    ensures DecodeData(EncodeField(Data(s)) + rest) == Ok((Clip(s), rest))
  {
    hide DecodeData;
    DataRoundTrip(s, rest);
  }

  lemma ModeArrives(mode: u32, rest: Bytes)
    ensures ParseMode(EncodeField(U32(ModeForm(mode))) + rest) == Ok((ModeForm(mode), rest))
  {
    hide DecodeU32;
    U32Arrives(ModeForm(mode), rest);
    ModeIdempotent(mode);
  }

  /** Both halves of a 64-bit field, read as two 32-bit fields. */
  lemma HalvesArrive(q: u64, rest: Bytes)
    ensures DecodeU32(EncodeField(U64(q)) + rest) == Ok((q / TWO32, EncodeField(U32(q % TWO32)) + rest))
  {
    hide DecodeU32, U32Bytes;
    U32Arrives(q / TWO32, EncodeField(U32(q % TWO32)) + rest);
    assert U64Bytes(q) + rest == U32Bytes(q / TWO32) + (U32Bytes(q % TWO32) + rest);
  }

  lemma SignedLow(v: i64)
    ensures I64ToU64(v) % TWO32 == v % TWO32
  {
    var k := v / TWO64;
    assert v == TWO64 * k + I64ToU64(v);
    assert v == TWO32 * (TWO32 * k) + I64ToU64(v);
  }

  lemma TimeArrives(t: Time, rest: Bytes)
    ensures ParseTime(EncodeFields(TimeFields(t)) + rest) == Ok((NormalTime(t), rest))
  {
    hide DecodeU64, DecodeU32, EncodeField, I64ToU64;
    var sec, nsec := U64(I64ToU64(t.sec)), U32(t.nsec % TWO32);
    Spread2(sec, nsec, rest);
    U64Arrives(I64ToU64(t.sec), EncodeField(nsec) + rest);
    U32Arrives(t.nsec % TWO32, rest);
    SignedLow(t.sec);
  }

  lemma OpenFlagsArrive(flags: Word, rest: Bytes)
    ensures ParseOpenFlags(EncodeField(U32(SentWord(flags))) + rest) == Ok((OpenForm(flags), rest))
  {
    hide DecodeU32, SentForm, ReceivedForm, LocalForm;
    U32Arrives(SentWord(flags), rest);
    OpenFlagsTrip(LARGEFILE, flags);
  }

  lemma AccessModeArrives(mode: u32, rest: Bytes)
    ensures ParseAccessMode(EncodeField(U8(AccessForm(mode))) + rest) == Ok((AccessForm(mode), rest))
  {
    hide EncodeField;
    U8Arrives(AccessForm(mode), rest);
  }

  /** The operations with 64-bit arguments or more than one argument behind the path. */
  predicate Wide(c: Call) {
    c.Release? || c.Chown? || c.Truncate? || c.Fsync? || c.Mknod? || c.Read? || c.Write?
  }

  lemma WideArgumentsArrive(c: Call, rest: Bytes)
    requires Wide(c) && !c.Read? && !c.Write?
    ensures RequestFields(c)[0] == Data(c.path)
    ensures ParseArguments(TypeCode(c), Clip(c.path), EncodeFields(RequestFields(c)[1..]) + rest) == Ok(Normal(c))
  {
    hide EncodeField, EncodeFields, DecodeU64, DecodeU32, DecodeData, Clip, ParseMode, ModeForm, ParseU8;
    match c
    case Release(path, handle) => Spread1(U64(handle), rest); U64Arrives(handle, rest);
    case Chown(path, uid, gid) =>
      Spread2(U32(uid), U32(gid), rest);
      U32Arrives(uid, EncodeField(U32(gid)) + rest);
      U32Arrives(gid, rest);
    case Truncate(path, length, handle) =>
      Spread2(U64(length), U64(handle), rest);
      U64Arrives(length, EncodeField(U64(handle)) + rest);
      U64Arrives(handle, rest);
    case Fsync(path, sync, handle) =>
      var b: u8 := if sync then 1 else 0;
      Spread2(U8(b), U64(handle), rest);
      U8Arrives(b, EncodeField(U64(handle)) + rest);
      U64Arrives(handle, rest);
    case Mknod(path, mode, dev) =>
      Spread2(U32(ModeForm(mode)), U64(dev), rest);
      ModeArrives(mode, EncodeField(U64(dev)) + rest);
      HalvesArrive(dev, rest);
  }

  lemma TransferArrives(c: Call, rest: Bytes)
    requires c.Read? || c.Write?
    ensures RequestFields(c)[0] == Data(c.path)
    ensures ParseArguments(TypeCode(c), Clip(c.path), EncodeFields(RequestFields(c)[1..]) + rest) == Ok(Normal(c))
  {
    hide EncodeField, EncodeFields, DecodeU64, DecodeU32, DecodeData, Clip;
    match c
    case Read(path, size, offset, handle) =>
      Spread3(U32(size % TWO32), U64(offset), U64(handle), rest);
      U32Arrives(size % TWO32, EncodeField(U64(offset)) + (EncodeField(U64(handle)) + rest));
      U64Arrives(offset, EncodeField(U64(handle)) + rest);
      U64Arrives(handle, rest);
    case Write(path, content, offset, handle) =>
      Spread3(Data(content), U64(offset), U64(handle), rest);
      DataArrives(content, EncodeField(U64(offset)) + (EncodeField(U64(handle)) + rest));
      U64Arrives(offset, EncodeField(U64(handle)) + rest);
      U64Arrives(handle, rest);
  }

  lemma NarrowArgumentsArrive(c: Call, rest: Bytes)
    requires !Wide(c) && !c.GetCreds? && !c.Symlink? && !c.Link? && !c.Rename? && !c.Utimens?
    ensures RequestFields(c)[0] == Data(c.path)
    ensures ParseArguments(TypeCode(c), Clip(c.path), EncodeFields(RequestFields(c)[1..]) + rest) == Ok(Normal(c))
  {
    hide EncodeField, EncodeFields, DecodeU64, DecodeU32, DecodeData, Clip, ParseMode, ParseOpenFlags,
      ParseAccessMode, OpenForm, SentWord, ModeForm, AccessForm, ParseU8, ParseBool, ParseTime;
    match c
    case Access(path, mode) => Spread1(U8(AccessForm(mode)), rest); AccessModeArrives(mode, rest);
    case Chmod(path, mode) => Spread1(U32(ModeForm(mode)), rest); ModeArrives(mode, rest);
    case Create(path, mode) => Spread1(U32(ModeForm(mode)), rest); ModeArrives(mode, rest);
    case Mkdir(path, mode) => Spread1(U32(ModeForm(mode)), rest); ModeArrives(mode, rest);
    case Open(path, flags) => Spread1(U32(SentWord(flags)), rest); OpenFlagsArrive(flags, rest);
    case _ =>
  }

  lemma ArgumentsArrive(c: Call, rest: Bytes)
    requires !c.GetCreds? && !c.Symlink? && !c.Link? && !c.Rename? && !c.Utimens?
    ensures RequestFields(c)[0] == Data(c.path)
    ensures ParseArguments(TypeCode(c), Clip(c.path), EncodeFields(RequestFields(c)[1..]) + rest) == Ok(Normal(c))
  {
    hide EncodeFields, RequestFields, ParseArguments, Normal, Clip;
    if c.Read? || c.Write? {
      TransferArrives(c, rest);
    } else if Wide(c) {
      WideArgumentsArrive(c, rest);
    } else {
      NarrowArgumentsArrive(c, rest);
    }
  }

  lemma TwoPathRequestArrives(c: Call, rest: Bytes)
    requires c.Symlink? || c.Link? || c.Rename?
    ensures ParseRequest(TypeCode(c), EncodeFields(RequestFields(c)) + rest) == Ok(Normal(c))
  {
    hide EncodeField, EncodeFields, DecodeData, Clip, ParseU8, ParseArguments, RenameForm;
    match c
    case Symlink(a, b) => Spread2(Data(a), Data(b), rest); TwoPathsArrive(a, b, rest);
    case Link(a, b) => Spread2(Data(a), Data(b), rest); TwoPathsArrive(a, b, rest);
    case Rename(a, b, flags) =>
      var f := U8(RenameForm(flags));
      Spread3(Data(a), Data(b), f, rest);
      TwoPathsArrive(a, b, EncodeField(f) + rest);
      U8Arrives(RenameForm(flags), rest);
  }

  /**
   Whatever the proxy writes for a call, the provider reads as that call's normal form; more bytes
   behind the request change nothing.
   */
  lemma RequestArrives(c: Call, rest: Bytes)
    ensures ParseRequest(TypeCode(c), EncodeFields(RequestFields(c)) + rest) == Ok(Normal(c))
  {
    if c.Symlink? || c.Link? || c.Rename? {
      TwoPathRequestArrives(c, rest);
    } else if c.Utimens? {
      UtimensArrives(c.path, c.atime, c.mtime, c.handle, rest);
    } else if !c.GetCreds? {
      PathRequestArrives(c, rest);
    }
  }

  lemma PathRequestArrives(c: Call, rest: Bytes)
    requires !c.GetCreds? && !c.Symlink? && !c.Link? && !c.Rename? && !c.Utimens?
    ensures ParseRequest(TypeCode(c), EncodeFields(RequestFields(c)) + rest) == Ok(Normal(c))
  {
    hide EncodeField, EncodeFields, DecodeData, ParseArguments, RequestFields, Normal, Clip;
    HasPath(c);
    var more := RequestFields(c)[1..];
    ArgumentsArrive(c, rest);
    assert RequestFields(c) == [Data(c.path)] + more;
    SpreadMore(Data(c.path), more, rest);
    DataArrives(c.path, EncodeFields(more) + rest);
    CodeOfPathRequest(c);
  }

  lemma HasPath(c: Call)
    requires !c.GetCreds?
    ensures RequestFields(c) != []
  {
  }

  lemma CodeOfPathRequest(c: Call)
    requires !c.GetCreds? && !c.Symlink? && !c.Link? && !c.Rename?
    ensures TypeCode(c) !in {0x04, 0x05, 0x06, 0x17}
  {
  }

  lemma TwoPathsArrive(a: Bytes, b: Bytes, rest: Bytes)
    ensures DecodeData(EncodeField(Data(a)) + (EncodeField(Data(b)) + rest))
            == Ok((Clip(a), EncodeField(Data(b)) + rest))
    ensures DecodeData(EncodeField(Data(b)) + rest) == Ok((Clip(b), rest))
  {
    DataArrives(a, EncodeField(Data(b)) + rest);
    DataArrives(b, rest);
  }

  lemma UtimensArrives(path: Bytes, atime: Time, mtime: Time, handle: u64, rest: Bytes)
    ensures var c := Utimens(path, atime, mtime, handle);
            ParseRequest(0x16, EncodeFields(RequestFields(c)) + rest) == Ok(Normal(c))
  {
    hide EncodeField, EncodeFields, DecodeU64, DecodeU32, DecodeData, Clip, ParseTime, TimeFields;
    var tail := EncodeField(U64(handle)) + rest;
    var b, m := TimeFields(atime), TimeFields(mtime) + [U64(handle)];
    SpreadMore(Data(path), b + m, rest);
    DataArrives(path, EncodeFields(b + m) + rest);
    EncodeAppend(b, m);
    EncodeAppend(TimeFields(mtime), [U64(handle)]);
    Spread1(U64(handle), rest);
    var after := EncodeFields(TimeFields(mtime)) + tail;
    assert EncodeFields(b + m) + rest == EncodeFields(b) + after;
    TimeArrives(atime, after);
    TimeArrives(mtime, tail);
    U64Arrives(handle, rest);
    assert ParseArguments(0x16, Clip(path), EncodeFields(b + m) + rest)
        == Ok(Utimens(Clip(path), NormalTime(atime), NormalTime(mtime), handle % TWO32));
  }

  // ----- Replies -----

  /** The out-parameters of the operations: each operation uses at most one of them. */
  datatype Outs = Outs(attr: Attr, text: Bytes, handle: u64, buffer: Bytes, entries: seq<Bytes>, stats: Stats)

  /** How an operation ends: its result and the values of the out-parameters afterwards. */
  datatype Reply = Reply(result: i32, out: Outs)

  /** The out-value that accompanies a result. */
  datatype Payload =
    | Nothing
    | Attributes(attr: Attr)
    | Target(text: Bytes)
    | Handle(handle: u64)
    | Content(content: Bytes)
    | Entries(entries: seq<Bytes>)
    | Statistics(stats: Stats)

  datatype Outcome = Outcome(result: i32, payload: Payload)

  /** A backend may not claim to have read more than the buffer it was given. */
  predicate InBounds(c: Call, r: Reply) {
    c.Read? ==> |r.out.buffer| == c.size && r.result <= c.size
  }

  /** What a caller learns from a backend's answer: out-values count only where the result says so. */
  function Direct(c: Call, r: Reply): Outcome
    requires InBounds(c, r)
  {
    Outcome(r.result,
            if c.Read? then if r.result > 0 then Content(r.out.buffer[..r.result]) else Nothing
            else if r.result != 0 then Nothing
            else match c
                 case GetAttr(_) => Attributes(r.out.attr)
                 case ReadLink(_) => Target(r.out.text)
                 case Open(_, _) => Handle(r.out.handle)
                 case Create(_, _) => Handle(r.out.handle)
                 case ReadDir(_) => Entries(r.out.entries)
                 case StatFs(_) => Statistics(r.out.stats)
                 case _ => Nothing)
  }

  /** Storing an out-value in the caller's variables; a listing is appended, and bytes go to the front of the buffer. */
  function Stored(out: Outs, p: Payload): Outs {
    match p
    case Nothing => out
    case Attributes(a) => out.(attr := a)
    case Target(t) => out.(text := t)
    case Handle(h) => out.(handle := h)
    case Content(d) => out.(buffer := d + (if |d| <= |out.buffer| then out.buffer[|d|..] else []))
    case Entries(l) => out.(entries := out.entries + l)
    case Statistics(s) => out.(stats := s)
  }

  /** How an operation ends for a caller whose variables held `out` before. */
  function Seen(out: Outs, o: Outcome): Reply {
    Reply(o.result, Stored(out, o.payload))
  }

  function PayloadFields(p: Payload): seq<Field> {
    match p
    case Attributes(a) => AttrFields(a)
    case Target(t) => [Data(t)]
    case Handle(h) => [U64(h)]
    case Content(d) => [Data(d)]
    case Entries(l) => [Strings(l)]
    case Statistics(s) => StatsFields(s)
    case _ => []
  }

  /** The fields a handler of the provider writes after the header. */
  function ReplyFields(c: Call, r: Reply): seq<Field>
    requires InBounds(c, r)
  {
    if c.GetCreds? then [Data(r.out.text)]
    else [U32(I32ToU32(r.result))] + PayloadFields(Direct(c, r).payload)
  }

  function ParsePayload(c: Call, result: i32, d: Bytes): Result<Payload> {
    if c.Read? then
      if result > 0 then
        var (data, _) :- DecodeData(d);
        if |data| <= c.size then Ok(Content(data)) else Throw
      else Ok(Nothing)
    else if result != 0 then Ok(Nothing)
    else match c
         case GetAttr(_) => var (a, _) :- ParseAttr(d); Ok(Attributes(a))
         case ReadLink(_) => var (t, _) :- DecodeData(d); Ok(Target(t))
         case Open(_, _) => var (h, _) :- DecodeU64(d); Ok(Handle(h))
         case Create(_, _) => var (h, _) :- DecodeU64(d); Ok(Handle(h))
         case ReadDir(_) => var (l, _) :- ParseStrings(d); Ok(Entries(l))
         case StatFs(_) => var (s, _) :- ParseStats(d); Ok(Statistics(s))
         case _ => Ok(Nothing)
  }

  /** What the proxy reads from the body of a response. */
  function ParseReply(c: Call, d: Bytes): Result<Outcome> {
    var (result, r1) :- ParseI32(d);
    var payload :- ParsePayload(c, result, r1);
    Ok(Outcome(result, payload))
  }

  function NormalAttr(a: Attr): Attr {
    var h := a.head;
    Attr(AttrHead(h.ino % TWO32, h.nlink % TWO32, ModeForm(h.mode), h.uid, h.gid, h.rdev % TWO32,
                  h.size % TWO32, h.blocks % TWO32),
         NormalTime(a.atime), NormalTime(a.mtime), NormalTime(a.ctime))
  }

  function NormalStats(s: Stats): Stats {
    Stats(s.bsize % TWO32, s.frsize % TWO32, s.blocks % TWO32, s.bfree % TWO32, s.bavail % TWO32,
          s.files % TWO32, s.ffree % TWO32, s.namemax % TWO32)
  }

  /** What an out-value becomes on the way back. */
  function NormalPayload(p: Payload): Payload {
    match p
    case Attributes(a) => Attributes(NormalAttr(a))
    case Target(t) => Target(Clip(t))
    case Handle(h) => Handle(h % TWO32)
    case Content(d) => Content(Clip(d))
    case Entries(l) => Entries(ClipAll(l[..|l| % TWO32]))
    case Statistics(s) => Statistics(NormalStats(s))
    case _ => p
  }

  function NormalOutcome(o: Outcome): Outcome {
    Outcome(o.result, NormalPayload(o.payload))
  }

  predicate FitsAttr(a: Attr) {
    var h := a.head;
    && h.ino < TWO32 && h.nlink < TWO32 && KnownMode(h.mode) && h.rdev < TWO32
    && 0 <= h.size < TWO32 && 0 <= h.blocks < TWO32
    && FitsTime(a.atime) && FitsTime(a.mtime) && FitsTime(a.ctime)
  }

  predicate FitsStats(s: Stats) {
    && s.bsize < TWO32 && s.frsize < TWO32 && s.blocks < TWO32 && s.bfree < TWO32
    && s.bavail < TWO32 && s.files < TWO32 && s.ffree < TWO32 && s.namemax < TWO32
  }

  /** The out-values that come back unchanged. */
  predicate FitsPayload(p: Payload) {
    match p
    case Attributes(a) => FitsAttr(a)
    case Target(t) => Short(t)
    case Handle(h) => h < TWO32
    case Content(d) => Short(d)
    case Entries(l) => |l| < TWO32 && forall s | s in l :: Short(s)
    case Statistics(s) => FitsStats(s)
    case _ => true
  }

  lemma AttrIffFits(a: Attr)
    ensures NormalAttr(a) == a <==> FitsAttr(a)
  {
    hide ModeForm;
    ModeFixed(a.head.mode);
  }

  lemma StatsIffFits(s: Stats)
    ensures NormalStats(s) == s <==> FitsStats(s)
  {
  }

  /** An outcome comes back as the backend gave it exactly when its out-value fits. */
  lemma NormalOutcomeIffFits(o: Outcome)
    ensures NormalOutcome(o) == o <==> FitsPayload(o.payload)
  {
    match o.payload
    case Attributes(a) => hide NormalAttr, FitsAttr; AttrIffFits(a);
    case Target(t) => hide Clip; ClipIffShort(t);
    case Content(d) => hide Clip; ClipIffShort(d);
    case Entries(l) => hide ClipAll; ReceivedIffFits(Strings(l));
    case Statistics(s) => hide NormalStats, FitsStats; StatsIffFits(s);
    case _ =>
  }

  lemma ResultArrives(v: i32, rest: Bytes)
    ensures ParseI32(EncodeField(U32(I32ToU32(v))) + rest) == Ok((v, rest))
  {
    hide DecodeU32, EncodeField;
    U32Arrives(I32ToU32(v), rest);
    I32RoundTrip(v);
  }

  lemma SignedReceived(v: i64)
    ensures U64ToI64(I64ToU64(v) % TWO32) == v % TWO32
  {
    SignedLow(v);
  }

  lemma AttrArrives(a: Attr, rest: Bytes)
    ensures ParseAttr(EncodeFields(AttrFields(a)) + rest) == Ok((NormalAttr(a), rest))
  {
    hide EncodeFields, DecodeFields, ModeForm, I64ToU64, U64ToI64;
    var fs := AttrFields(a);
    RoundTrip(fs, rest);
    assert TypesOf(fs) == ATTR_TYPES;
    ModeIdempotent(a.head.mode);
    ModeIdempotent(ModeForm(a.head.mode));
    SignedReceived(a.head.size);
    SignedReceived(a.head.blocks);
    SignedReceived(a.atime.sec);
    SignedReceived(a.mtime.sec);
    SignedReceived(a.ctime.sec);
    assert AttrOf(ReceivedAll(fs)) == NormalAttr(a);
  }

  lemma StatsArrive(s: Stats, rest: Bytes)
    ensures ParseStats(EncodeFields(StatsFields(s)) + rest) == Ok((NormalStats(s), rest))
  {
    hide EncodeFields, DecodeFields;
    var fs := StatsFields(s);
    RoundTrip(fs, rest);
    assert TypesOf(fs) == STATS_TYPES;
    assert StatsOf(ReceivedAll(fs)) == NormalStats(s);
  }

  lemma EntriesArrive(l: seq<Bytes>, rest: Bytes)
    ensures ParseStrings(EncodeField(Strings(l)) + rest).Ok?
    ensures ParseStrings(EncodeField(Strings(l)) + rest).value.0 == ClipAll(l[..|l| % TWO32])
  {
    hide EncodeField, DecodeAll, DecodeU32;
    StringsRoundTrip(l, rest);
  }

  lemma PayloadArrives(c: Call, r: Reply, rest: Bytes)
    requires InBounds(c, r)
    ensures var o := Direct(c, r);
            ParsePayload(c, r.result, EncodeFields(PayloadFields(o.payload)) + rest) == Ok(NormalPayload(o.payload))
  {
    hide EncodeField, EncodeFields, DecodeU64, DecodeData, ParseAttr, ParseStats, ParseStrings, NormalAttr,
      NormalStats, AttrFields, StatsFields, ClipAll;
    match Direct(c, r).payload
    case Attributes(a) => AttrArrives(a, rest);
    case Target(t) => Spread1(Data(t), rest); DataArrives(t, rest);
    case Handle(h) => Spread1(U64(h), rest); U64Arrives(h, rest);
    case Content(d) => Spread1(Data(d), rest); DataArrives(d, rest);
    case Entries(l) => Spread1(Strings(l), rest); EntriesArrive(l, rest);
    case Statistics(s) => StatsArrive(s, rest);
    case _ =>
  }

  /** Whatever a handler writes, the proxy reads as the normal form of what a direct caller sees. */
  lemma ReplyArrives(c: Call, r: Reply, rest: Bytes)
    requires InBounds(c, r) && !c.GetCreds?
    ensures ParseReply(c, EncodeFields(ReplyFields(c, r)) + rest) == Ok(NormalOutcome(Direct(c, r)))
  {
    hide EncodeField, EncodeFields, ParseI32, ParsePayload, PayloadFields, Direct, NormalPayload;
    var fs := PayloadFields(Direct(c, r).payload);
    SpreadMore(U32(I32ToU32(r.result)), fs, rest);
    ResultArrives(r.result, EncodeFields(fs) + rest);
    PayloadArrives(c, r, rest);
    ResultOfDirect(c, r);
  }

  lemma ResultOfDirect(c: Call, r: Reply)
    requires InBounds(c, r)
    ensures Direct(c, r).result == r.result
  {
  }
}
