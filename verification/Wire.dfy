/**
 The bytes of every message, laid out as the protocol document gives them: numbers in big-endian order, a string
 behind its length, a list behind its number of entries, structures member by member.
 */
module Wire {
  import opened Bytes
  import opened Flags
  import opened Codec
  import opened Message
  import opened Calls
  import opened Remote

  // ----- Data types -----

  function Four(v: u32): Bytes {
    [v / 0x100_0000, v / 0x1_0000 % 0x100, v / 0x100 % 0x100, v % 0x100]
  }

  function Eight(v: u64): Bytes {
    Four(v / 0x1_0000_0000) + Four(v % 0x1_0000_0000)
  }

  /** Signed numbers travel in two's complement. */
  function SignedFour(v: i32): Bytes {
    Four(if v < 0 then v + 0x1_0000_0000 else v)
  }

  function SignedEight(v: i64): Bytes {
    Eight(if v < 0 then v + 0x1_0000_0000_0000_0000 else v)
  }

  /** The length is stored in four bytes, whatever the string. */
  function Text(s: Bytes): Bytes {
    var n := |s| % 0x1_0000_0000;
    Four(n) + s[..n]
  }

  function Texts(l: seq<Bytes>): Bytes {
    if l == [] then [] else Text(l[0]) + Texts(l[1..])
  }

  /** The number of entries is stored in four bytes, whatever the list. */
  function Listing(l: seq<Bytes>): Bytes {
    Four(|l| % 0x1_0000_0000) + Texts(l)
  }

  /** The parts of a structure or a message, one behind the other. */
  function Joined(parts: seq<Bytes>): Bytes {
    if parts == [] then [] else parts[0] + Joined(parts[1..])
  }

  function Stamp(t: Time): seq<Bytes> {
    [SignedEight(t.sec), Four(t.nsec % 0x1_0000_0000)]
  }

  function Attributes(a: Attr): seq<Bytes> {
    var h := a.head;
    [Eight(h.ino), Eight(h.nlink), Four(ModeForm(h.mode)), Four(h.uid), Four(h.gid), Eight(h.rdev),
     SignedEight(h.size), SignedEight(h.blocks)]
    + Stamp(a.atime) + Stamp(a.mtime) + Stamp(a.ctime)
  }

  function Statistics(s: Stats): seq<Bytes> {
    [Eight(s.bsize), Eight(s.frsize), Eight(s.blocks), Eight(s.bfree), Eight(s.bavail), Eight(s.files),
     Eight(s.ffree), Eight(s.namemax)]
  }

  // ----- Messages -----

  /** Type code and arguments of a request. */
  function Request(c: Call): seq<Bytes> {
    match c
    case Access(path, mode) => [[0x01], Text(path), [mode % 8]]
    case GetAttr(path) => [[0x02], Text(path)]
    case ReadLink(path) => [[0x03], Text(path)]
    case Symlink(target, linkPath) => [[0x04], Text(target), Text(linkPath)]
    case Link(oldPath, newPath) => [[0x05], Text(oldPath), Text(newPath)]
    case Rename(oldPath, newPath, flags) => [[0x06], Text(oldPath), Text(newPath), [flags % 4]]
    case Chmod(path, mode) => [[0x07], Text(path), Four(ModeForm(mode))]
    case Chown(path, uid, gid) => [[0x08], Text(path), Four(uid), Four(gid)]
    case Truncate(path, length, handle) => [[0x09], Text(path), Eight(length), Eight(handle)]
    case Fsync(path, sync, handle) => [[0x0a], Text(path), [if sync then 1 else 0], Eight(handle)]
    case Open(path, flags) => [[0x0b], Text(path), Four(SentWord(flags))]
    case Mknod(path, mode, dev) => [[0x0c], Text(path), Four(ModeForm(mode)), Eight(dev)]
    case Create(path, mode) => [[0x0d], Text(path), Four(ModeForm(mode))]
    case Release(path, handle) => [[0x0e], Text(path), Eight(handle)]
    case Unlink(path) => [[0x0f], Text(path)]
    case Read(path, size, offset, handle) =>
      [[0x10], Text(path), Four(size % 0x1_0000_0000), Eight(offset), Eight(handle)]
    case Write(path, content, offset, handle) => [[0x11], Text(path), Text(content), Eight(offset), Eight(handle)]
    case Mkdir(path, mode) => [[0x12], Text(path), Four(ModeForm(mode))]
    case ReadDir(path) => [[0x13], Text(path)]
    case Rmdir(path) => [[0x14], Text(path)]
    case StatFs(path) => [[0x15], Text(path)]
    case Utimens(path, atime, mtime, handle) => [[0x16], Text(path)] + Stamp(atime) + Stamp(mtime) + [Eight(handle)]
    case GetCreds => [[0x17]]
  }

  /** Type code, result and values of a response. */
  function Response(c: Call, r: Reply): seq<Bytes>
    requires c.Read? ==> r.result <= |r.out.buffer|
  {
    var n := SignedFour(r.result);
    match c
    case GetAttr(_) => [[0x82], n] + (if r.result == 0 then Attributes(r.out.attr) else [])
    case ReadLink(_) => [[0x83], n] + (if r.result == 0 then [Text(r.out.text)] else [])
    case Open(_, _) => [[0x8b], n] + (if r.result == 0 then [Eight(r.out.handle)] else [])
    case Create(_, _) => [[0x8d], n] + (if r.result == 0 then [Eight(r.out.handle)] else [])
    case Read(_, _, _, _) => [[0x90], n] + (if r.result > 0 then [Text(r.out.buffer[..r.result])] else [])
    case ReadDir(_) => [[0x93], n] + (if r.result == 0 then [Listing(r.out.entries)] else [])
    case StatFs(_) => [[0x95], n] + (if r.result == 0 then Statistics(r.out.stats) else [])
    case GetCreds => [[0x97], Text(r.out.text)]
    case _ => [[0x80 + TypeCode(c)], n]
  }

  // ----- What the writers of both sides produce -----

  function Layout(f: Field): Bytes {
    match f
    case U8(b) => [b]
    case U32(w) => Four(w)
    case U64(q) => Eight(q)
    case Data(s) => Text(s)
    case Strings(l) => Listing(l)
  }

  function Layouts(fs: seq<Field>): seq<Bytes> {
    seq(|fs|, i requires 0 <= i < |fs| => Layout(fs[i]))
  }

  lemma FourBytes(v: u32)
    ensures U32Bytes(v) == Four(v)
  {
  }

  lemma TextBytes(s: Bytes)
    ensures EncodeData(s) == Text(s)
  {
    hide Four, U32Bytes;
    FourBytes(|s| % TWO32);
  }

  lemma {:induction false} TextsBytes(l: seq<Bytes>)
    ensures EncodeAll(l) == Texts(l)
  {
    hide EncodeData, Text;
    if l != [] {
      TextBytes(l[0]);
      TextsBytes(l[1..]);
    }
  }

  /** Every field is printed in the layout of its type. */
  lemma FieldBytes(f: Field)
    ensures EncodeField(f) == Layout(f)
  {
    hide Four, Text, Texts, U32Bytes, EncodeData, EncodeAll;
    match f
    case U8(b) =>
    case U32(w) => FourBytes(w);
    case U64(q) => FourBytes(q / TWO32); FourBytes(q % TWO32);
    case Data(s) => TextBytes(s);
    case Strings(l) => FourBytes(|l| % TWO32); TextsBytes(l);
  }

  lemma {:induction false} FieldsBytes(fs: seq<Field>)
    ensures EncodeFields(fs) == Joined(Layouts(fs))
  {
    hide EncodeField, Layout;
    if fs != [] {
      FieldBytes(fs[0]);
      FieldsBytes(fs[1..]);
      assert Layouts(fs)[1..] == Layouts(fs[1..]);
    }
  }

  lemma MessageBytes(id: u32, kind: u8, fields: seq<Field>)
    ensures MessageOf(id, kind, fields) == Joined([Four(id), [kind]] + Layouts(fields))
  {
    hide EncodeFields, Joined, Four;
    var fs := [U32(id), U8(kind)] + fields;
    FieldsBytes(fs);
    assert Layouts(fs) == [Four(id), [kind]] + Layouts(fields);
  }

  /** A request is identifier, type code and arguments. */
  lemma RequestBytes(id: u32, c: Call)
    ensures RequestMessage(id, c) == Joined([Four(id)] + Request(c))
  {
    hide Joined, MessageOf, Request, RequestFields;
    MessageBytes(id, TypeCode(c), RequestFields(c));
    ArgumentBytes(c);
    assert [Four(id)] + ([[TypeCode(c)]] + Layouts(RequestFields(c)))
        == [Four(id), [TypeCode(c)]] + Layouts(RequestFields(c));
  }

  lemma ArgumentBytes(c: Call)
    ensures [[TypeCode(c)]] + Layouts(RequestFields(c)) == Request(c)
  {
    hide TypeCode, RequestFields, Request, Layouts;
    if c.Utimens? {
      TimesBytes(c);
    } else if c.Read? || c.Write? {
      TransferBytes(c);
    } else if Wide(c) {
      NumberBytes(c);
    } else if c.Access? || c.Rename? {
      ByteBytes(c);
    } else if c.Open? {
      OpenBytes(c);
    } else if SendsFlags(c) {
      ModeBytes(c);
    } else {
      PathBytes(c);
    }
  }

  predicate OnePath(c: Call) {
    c.GetAttr? || c.ReadLink? || c.Unlink? || c.ReadDir? || c.Rmdir? || c.StatFs? || c.Symlink? || c.Link?
  }

  lemma TimesBytes(c: Call)
    requires c.Utimens?
    ensures [[TypeCode(c)]] + Layouts(RequestFields(c)) == Request(c)
  {
    hide Four, Eight, Text;
  }

  lemma TransferBytes(c: Call)
    requires c.Read? || c.Write?
    ensures [[TypeCode(c)]] + Layouts(RequestFields(c)) == Request(c)
  {
    hide Four, Eight, Text;
  }

  lemma NumberBytes(c: Call)
    requires Wide(c) && !c.Read? && !c.Write?
    ensures [[TypeCode(c)]] + Layouts(RequestFields(c)) == Request(c)
  {
    hide Four, Eight, Text, ModeForm;
  }

  lemma PathBytes(c: Call)
    requires OnePath(c) || c.GetCreds?
    ensures [[TypeCode(c)]] + Layouts(RequestFields(c)) == Request(c)
  {
    hide Text;
  }

  lemma ByteBytes(c: Call)
    requires c.Access? || c.Rename?
    ensures [[TypeCode(c)]] + Layouts(RequestFields(c)) == Request(c)
  {
    hide Text;
  }

  lemma ModeBytes(c: Call)
    requires c.Chmod? || c.Create? || c.Mkdir?
    ensures [[TypeCode(c)]] + Layouts(RequestFields(c)) == Request(c)
  {
    hide Four, Text, ModeForm;
  }

  lemma OpenBytes(c: Call)
    requires c.Open?
    ensures [[TypeCode(c)]] + Layouts(RequestFields(c)) == Request(c)
  {
    hide Four, Text, SentWord;
  }

  lemma AttributesBytes(a: Attr)
    ensures Layouts(AttrFields(a)) == Attributes(a)
  {
    hide Four, Eight, ModeForm;
    ModeIdempotent(a.head.mode);
  }

  /** A response is the request's identifier, the type code with its top bit set, the result, and the values. */
  lemma ResponseBytes(id: u32, c: Call, r: Reply)
    requires InBounds(c, r)
    ensures Answer(id, TypeCode(c), c, Ok(r)) == Ok(Joined([Four(id)] + Response(c, r)))
  {
    hide Joined, MessageOf, Response, ReplyFields;
    MessageBytes(id, 0x80 + TypeCode(c), ReplyFields(c, r));
    ValueBytes(c, r);
    assert [Four(id)] + ([[0x80 + TypeCode(c)]] + Layouts(ReplyFields(c, r)))
        == [Four(id), [0x80 + TypeCode(c)]] + Layouts(ReplyFields(c, r));
  }

  lemma ValueBytes(c: Call, r: Reply)
    requires InBounds(c, r)
    ensures [[0x80 + TypeCode(c)]] + Layouts(ReplyFields(c, r)) == Response(c, r)
  {
    hide TypeCode, ReplyFields, Response, Layouts;
    if c.GetAttr? || c.StatFs? {
      StructureBytes(c, r);
    } else if r.result == 0 && (c.ReadLink? || c.Open? || c.Create? || c.ReadDir?) {
      OneValueBytes(c, r);
    } else if c.Read? || c.GetCreds? {
      ContentBytes(c, r);
    } else {
      ResultBytes(c, r);
    }
  }

  lemma ContentBytes(c: Call, r: Reply)
    requires InBounds(c, r) && (c.Read? || c.GetCreds?)
    ensures [[0x80 + TypeCode(c)]] + Layouts(ReplyFields(c, r)) == Response(c, r)
  {
    hide Four, Text;
  }

  lemma ResultBytes(c: Call, r: Reply)
    requires !c.GetAttr? && !c.StatFs? && !c.Read? && !c.GetCreds?
    requires r.result == 0 ==> !c.ReadLink? && !c.Open? && !c.Create? && !c.ReadDir?
    ensures [[0x80 + TypeCode(c)]] + Layouts(ReplyFields(c, r)) == Response(c, r)
  {
    hide Four;
  }

  lemma StructureBytes(c: Call, r: Reply)
    requires c.GetAttr? || c.StatFs?
    ensures [[0x80 + TypeCode(c)]] + Layouts(ReplyFields(c, r)) == Response(c, r)
  {
    hide Four, Eight, AttrFields, Attributes;
    AttributesBytes(r.out.attr);
  }

  lemma OneValueBytes(c: Call, r: Reply)
    requires r.result == 0 && (c.ReadLink? || c.Open? || c.Create? || c.ReadDir?)
    ensures [[0x80 + TypeCode(c)]] + Layouts(ReplyFields(c, r)) == Response(c, r)
  {
    hide Four, Eight, Text, Listing;
  }

  // ----- What the handlers make of any service's requests -----

  lemma ModesAreRead(path: Bytes, word: u32, dev: u64, rest: Bytes)
    ensures var d := EncodeFields([Data(path), U32(word)]) + rest;
            && ParseRequest(0x07, d) == Ok(Chmod(Clip(path), ModeForm(word)))
            && ParseRequest(0x0b, d) == Ok(Open(Clip(path), ReceivedForm(LARGEFILE, word as Word)))
            && ParseRequest(0x0d, d) == Ok(Create(Clip(path), ModeForm(word)))
            && ParseRequest(0x12, d) == Ok(Mkdir(Clip(path), ModeForm(word)))
    ensures ParseRequest(0x0c, EncodeFields([Data(path), U32(word), U64(dev)]) + rest)
            == Ok(Mknod(Clip(path), ModeForm(word), dev / TWO32))
  {
    hide EncodeField, EncodeFields, DecodeData, DecodeU32, Clip, ModeForm, ReceivedForm;
    Spread2(Data(path), U32(word), rest);
    DataArrives(path, EncodeField(U32(word)) + rest);
    U32Arrives(word, rest);
    var tail := EncodeField(U64(dev)) + rest;
    Spread3(Data(path), U32(word), U64(dev), rest);
    DataArrives(path, EncodeField(U32(word)) + tail);
    U32Arrives(word, tail);
    HalvesArrive(dev, rest);
  }

  /** Of an access mode three bits count, rename flags are taken as they are, and only a byte of 1 is true. */
  lemma BytesAreRead(path: Bytes, other: Bytes, b: u8, handle: u64, rest: Bytes)
    ensures ParseRequest(0x01, EncodeFields([Data(path), U8(b)]) + rest) == Ok(Access(Clip(path), b % 8))
    ensures ParseRequest(0x06, EncodeFields([Data(path), Data(other), U8(b)]) + rest)
            == Ok(Rename(Clip(path), Clip(other), b))
    ensures ParseRequest(0x0a, EncodeFields([Data(path), U8(b), U64(handle)]) + rest)
            == Ok(Fsync(Clip(path), b == 1, handle % TWO32))
  {
    hide EncodeField, EncodeFields, DecodeData, DecodeU64, Clip, ParseU8;
    Spread2(Data(path), U8(b), rest);
    DataArrives(path, EncodeField(U8(b)) + rest);
    U8Arrives(b, rest);
    Spread3(Data(path), Data(other), U8(b), rest);
    TwoPathsArrive(path, other, EncodeField(U8(b)) + rest);
    var tail := EncodeField(U64(handle)) + rest;
    Spread3(Data(path), U8(b), U64(handle), rest);
    DataArrives(path, EncodeField(U8(b)) + tail);
    U8Arrives(b, tail);
    U64Arrives(handle, rest);
  }
}
