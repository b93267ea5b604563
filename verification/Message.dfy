/**
 The mutable message buffers: a writer that grows and patches a byte vector, and a reader that advances a cursor.
 The writer keeps a ghost list of the fields it has written, which ties its bytes to the printer of module `Codec`;
 what is left behind a reader's cursor ties it to the parser.
 */
module Message {
  import opened Bytes
  import opened Flags
  import opened Codec

  /** Seconds and nanoseconds as `struct timespec` holds them. */
  datatype Time = Time(sec: i64, nsec: i64)

  /** The members of `struct stat` that are sent: first all but the time stamps. */
  datatype AttrHead = AttrHead(
    ino: u64, nlink: u64, mode: u32, uid: u32, gid: u32, rdev: u64, size: i64, blocks: i64)

  datatype Attr = Attr(head: AttrHead, atime: Time, mtime: Time, ctime: Time)

  /** `struct statvfs`. */
  datatype Stats = Stats(
    bsize: u64, frsize: u64, blocks: u64, bfree: u64, bavail: u64, files: u64, ffree: u64, namemax: u64)

  function I64ToU64(v: i64): u64 {
    v % TWO64
  }

  function TimeFields(t: Time): seq<Field> {
    [U64(I64ToU64(t.sec)), U32(t.nsec % TWO32)]
  }

  /** `write_attr` converts the mode before `write_mode` converts it again. */
  function AttrFields(a: Attr): seq<Field> {
    var h := a.head;
    [U64(h.ino), U64(h.nlink), U32(ModeForm(ModeForm(h.mode))), U32(h.uid), U32(h.gid), U64(h.rdev),
     U64(I64ToU64(h.size)), U64(I64ToU64(h.blocks)),
     U64(I64ToU64(a.atime.sec)), U32(a.atime.nsec % TWO32),
     U64(I64ToU64(a.mtime.sec)), U32(a.mtime.nsec % TWO32),
     U64(I64ToU64(a.ctime.sec)), U32(a.ctime.nsec % TWO32)]
  }

  function StatsFields(s: Stats): seq<Field> {
    [U64(s.bsize), U64(s.frsize), U64(s.blocks), U64(s.bfree), U64(s.bavail), U64(s.files),
     U64(s.ffree), U64(s.namemax)]
  }

  /** A whole message: identifier, type code and typed fields. */
  function MessageOf(id: u32, kind: u8, fields: seq<Field>): Bytes {
    EncodeFields([U32(id), U8(kind)] + fields)
  }

  /** What a message becomes when its first four bytes are overwritten. */
  function WithId(m: Bytes, id: u32): (r: Bytes)
    requires |m| >= 4
    ensures |r| == |m| && r[4..] == m[4..]
  {
    U32Bytes(id) + m[4..]
  }

  lemma MessageParts(id: u32, kind: u8, fields: seq<Field>)
    ensures MessageOf(id, kind, fields) == U32Bytes(id) + [kind] + EncodeFields(fields)
  {
    hide U32Bytes;
    var fs := [U32(id), U8(kind)] + fields;
    assert fs[1..] == [U8(kind)] + fields && fs[1..][1..] == fields;
    assert EncodeFields(fs) == U32Bytes(id) + EncodeFields(fs[1..]);
    assert EncodeFields(fs[1..]) == [kind] + EncodeFields(fields);
  }

  /** Setting the identifier after the body equals having written that identifier first. */
  lemma SetIdLast(id: u32, later: u32, kind: u8, fields: seq<Field>)
    ensures |MessageOf(id, kind, fields)| >= 5
    ensures WithId(MessageOf(id, kind, fields), later) == MessageOf(later, kind, fields)
  {
    hide U32Bytes, MessageOf, EncodeFields;
    MessageParts(id, kind, fields);
    MessageParts(later, kind, fields);
    assert MessageOf(id, kind, fields)[4..] == [kind] + EncodeFields(fields);
  }

  /** Appending the bytes of a field to a message gives the message with that field. */
  lemma Grows(id: u32, kind: u8, fields: seq<Field>, f: Field)
    ensures MessageOf(id, kind, fields) + EncodeField(f) == MessageOf(id, kind, fields + [f])
  {
    hide EncodeField;
    EncodeSnoc([U32(id), U8(kind)] + fields, f);
    assert [U32(id), U8(kind)] + fields + [f] == [U32(id), U8(kind)] + (fields + [f]);
  }

  function DataFields(list: seq<Bytes>): seq<Field> {
    seq(|list|, i requires 0 <= i < |list| => Data(list[i]))
  }

  lemma {:induction false} EncodeDataFields(list: seq<Bytes>)
    ensures EncodeFields(DataFields(list)) == EncodeAll(list)
  {
    hide EncodeData;
    if list != [] {
      assert DataFields(list)[1..] == DataFields(list[1..]);
      EncodeDataFields(list[1..]);
    }
  }

  /** A string list is its count followed by each string as a field of its own. */
  lemma StringsAreParts(id: u32, kind: u8, fields: seq<Field>, list: seq<Bytes>)
    ensures MessageOf(id, kind, fields + [U32(|list| % TWO32)] + DataFields(list))
            == MessageOf(id, kind, fields + [Strings(list)])
  {
    hide EncodeFields, DataFields, U32Bytes, EncodeAll;
    var head := [U32(id), U8(kind)] + fields;
    var n := U32(|list| % TWO32);
    assert [U32(id), U8(kind)] + (fields + [n] + DataFields(list)) == head + [n] + DataFields(list);
    EncodeAppend(head + [n], DataFields(list));
    EncodeDataFields(list);
    EncodeSnoc(head, n);
    EncodeSnoc(head, Strings(list));
    assert head + [Strings(list)] == [U32(id), U8(kind)] + (fields + [Strings(list)]);
  }

  /** `messagewriter`.  `headroom` bytes in front of the message belong to the socket library (LWS_PRE). */
  class Writer {
    const headroom: nat
    const kind: u8
    var id: u32
    var data: Bytes
    ghost var fields: seq<Field>

    ghost predicate Valid()
      reads this
    {
      |data| >= headroom && data[headroom..] == MessageOf(id, kind, fields)
    }

    constructor (headroom: nat, kind: u8)
      ensures Valid() && fields == [] && id == 0
      ensures this.headroom == headroom && this.kind == kind
    {
      this.headroom := headroom;
      this.kind := kind;
      id := 0;
      data := seq(headroom, i => 0) + U32Bytes(0) + [kind];
      fields := [];
      new;
      hide U32Bytes;
      MessageParts(0, kind, []);
      assert data[headroom..] == U32Bytes(0) + [kind];
    }

    /** `set_id`: overwrites four bytes in place. */
    method SetId(value: u32)
      requires Valid()
      modifies `id, `data
      ensures Valid() && id == value
    {
      hide U32Bytes;
      SetIdLast(id, value, kind, fields);
      id := value;
      ghost var body := data[headroom..];
      data := data[..headroom] + U32Bytes(value) + data[headroom + 4..];
      assert data[headroom..] == WithId(body, value);
    }

    /** `get_data`: the bytes after the headroom. */
    method GetData() returns (message: Bytes)
      requires Valid()
      ensures message == MessageOf(id, kind, fields)
    {
      message := data[headroom..];
    }

    method WriteU8(value: u8)
      requires Valid()
      modifies `data, `fields
      ensures Valid() && fields == old(fields) + [U8(value)]
    {
      Grows(id, kind, fields, U8(value));
      data := data + [value];
      fields := fields + [U8(value)];
    }

    method WriteBool(value: bool)
      requires Valid()
      modifies `data, `fields
      ensures Valid() && fields == old(fields) + [U8(if value then 1 else 0)]
    {
      WriteU8(if value then 1 else 0);
    }

    method WriteU32(value: u32)
      requires Valid()
      modifies `data, `fields
      ensures Valid() && fields == old(fields) + [U32(value)]
    {
      hide U32Bytes;
      Grows(id, kind, fields, U32(value));
      data := data + U32Bytes(value);
      fields := fields + [U32(value)];
    }

    method WriteI32(value: i32)
      requires Valid()
      modifies `data, `fields
      ensures Valid() && fields == old(fields) + [U32(I32ToU32(value))]
    {
      WriteU32(I32ToU32(value));
    }

    method WriteU64(value: u64)
      requires Valid()
      modifies `data, `fields
      ensures Valid() && fields == old(fields) + [U64(value)]
    {
      hide U64Bytes;
      Grows(id, kind, fields, U64(value));
      data := data + U64Bytes(value);
      fields := fields + [U64(value)];
    }

    /** `write_str` and `write_data`: the length is stored modulo 2^32 and only that many bytes follow. */
    method WriteData(value: Bytes)
      requires Valid()
      modifies `data, `fields
      ensures Valid() && fields == old(fields) + [Data(value)]
    {
      hide U32Bytes;
      var size := |value| % TWO32;
      Grows(id, kind, fields, Data(value));
      data := data + U32Bytes(size) + value[..size];
      fields := fields + [Data(value)];
      assert data == old(data) + (U32Bytes(size) + value[..size]);
    }

    /** `write_strings`: the count is stored modulo 2^32, yet every entry is written. */
    method WriteStrings(list: seq<Bytes>)
      requires Valid()
      modifies `data, `fields
      ensures Valid() && fields == old(fields) + [Strings(list)]
    {
      ghost var before := fields;
      var count := |list| % TWO32;
      WriteU32(count);
      assert DataFields(list[..0]) == [];
      for i := 0 to |list|
        invariant Valid() && fields == before + [U32(count)] + DataFields(list[..i])
      {
        WriteData(list[i]);
        assert DataFields(list[..i]) + [Data(list[i])] == DataFields(list[..i + 1]);
      }
      assert list[..|list|] == list;
      StringsAreParts(id, kind, before, list);
      fields := before + [Strings(list)];
    }

    method WriteMode(value: u32)
      requires Valid()
      modifies `data, `fields
      ensures Valid() && fields == old(fields) + [U32(ModeForm(value))]
    {
      var mode := ConvertMode(value);
      WriteU32(mode);
    }

    method WriteAccessMode(value: u32)
      requires Valid()
      modifies `data, `fields
      ensures Valid() && fields == old(fields) + [U8(AccessForm(value))]
    {
      var mode := ConvertAccessMode(value);
      WriteU8(mode);
    }

    method WriteRenameFlags(value: u32)
      requires Valid()
      modifies `data, `fields
      ensures Valid() && fields == old(fields) + [U8(RenameForm(value))]
    {
      var flags := ConvertRenameFlags(value);
      WriteU8(flags);
    }

    method WriteOpenFlags(value: Word)
      requires Valid()
      modifies `data, `fields
      ensures Valid() && fields == old(fields) + [U32(SentWord(value))]
    {
      var flags := FromInt(LARGEFILE, value);
      WriteU32(flags as int);
    }

    method WriteTime(value: Time)
      requires Valid()
      modifies `data, `fields
      ensures Valid() && fields == old(fields) + TimeFields(value)
    {
      WriteU64(I64ToU64(value.sec));
      WriteU32(value.nsec % TWO32);
    }

    method WriteAttr(attr: Attr)
      requires Valid()
      modifies `data, `fields
      ensures Valid() && fields == old(fields) + AttrFields(attr)
    {
      hide Valid, ModeForm;
      var head := attr.head;
      WriteU64(head.ino);
      WriteU64(head.nlink);
      var mode := ConvertMode(head.mode);
      WriteMode(mode);
      WriteU32(head.uid);
      WriteU32(head.gid);
      WriteU64(head.rdev);
      WriteU64(I64ToU64(head.size));
      WriteU64(I64ToU64(head.blocks));
      assert fields == old(fields) + AttrFields(attr)[..8];
      WriteTime(attr.atime);
      WriteTime(attr.mtime);
      WriteTime(attr.ctime);
    }

    method WriteStatistics(stats: Stats)
      requires Valid()
      modifies `data, `fields
      ensures Valid() && fields == old(fields) + StatsFields(stats)
    {
      hide Valid;
      WriteU64(stats.bsize);
      WriteU64(stats.frsize);
      WriteU64(stats.blocks);
      WriteU64(stats.bfree);
      WriteU64(stats.bavail);
      WriteU64(stats.files);
      WriteU64(stats.ffree);
      WriteU64(stats.namemax);
    }
  }

  // ----- The parser behind each read -----

  function ParseU8(d: Bytes): Result<(u8, Bytes)> {
    if d == [] then Throw else Ok((d[0], d[1..]))
  }

  function ParseBool(d: Bytes): Result<(bool, Bytes)> {
    var (v, r) :- ParseU8(d);
    Ok((1 == v, r))
  }

  function ParseI32(d: Bytes): Result<(i32, Bytes)> {
    var (v, r) :- DecodeU32(d);
    Ok((U32ToI32(v), r))
  }

  function ParseMode(d: Bytes): Result<(u32, Bytes)> {
    var (v, r) :- DecodeU32(d);
    Ok((ModeForm(v), r))
  }

  function ParseAccessMode(d: Bytes): Result<(u32, Bytes)> {
    var (v, r) :- ParseU8(d);
    Ok((AccessForm(v), r))
  }

  function ParseOpenFlags(d: Bytes): Result<(Word, Bytes)> {
    var (v, r) :- DecodeU32(d);
    Ok((ReceivedForm(LARGEFILE, v as Word), r))
  }

  function ParseStrings(d: Bytes): Result<(seq<Bytes>, Bytes)> {
    var (n, r) :- DecodeU32(d);
    DecodeAll(n, r)
  }

  /** The reader never produces a 64-bit value of 2^32 or more, so it also fits a signed type. */
  function ParseI64(d: Bytes): Result<(i64, Bytes)> {
    var (v, r) :- DecodeU64(d);
    Ok((v % TWO32, r))
  }

  function ParseTime(d: Bytes): Result<(Time, Bytes)> {
    var (sec, r1) :- ParseI64(d);
    var (nsec, r2) :- DecodeU32(r1);
    Ok((Time(sec, nsec), r2))
  }

  // ----- Structures, member by member -----

  /** The types of the members of `struct stat` and `struct statvfs` in the order in which they are read. */
  const ATTR_TYPES: seq<FieldType> := [
    U64T, U64T, U32T, U32T, U32T, U64T, U64T, U64T, U64T, U32T, U64T, U32T, U64T, U32T]

  const STATS_TYPES: seq<FieldType> := [U64T, U64T, U64T, U64T, U64T, U64T, U64T, U64T]

  /** `fs` are the first of the fields that `ts` describes. */
  predicate Typed(fs: seq<Field>, ts: seq<FieldType>) {
    |fs| <= |ts| && forall i | 0 <= i < |fs| :: TypeOf(fs[i]) == ts[i]
  }

  function U64ToI64(v: u64): i64 {
    if v < 0x8000_0000_0000_0000 then v else v - TWO64
  }

  /** Assigns member `k` of `struct stat`. */
  function Member(a: Attr, k: nat, f: Field): Attr
    requires k < 14 && TypeOf(f) == ATTR_TYPES[k]
  {
    match k
    case 0 => a.(head := a.head.(ino := f.q))
    case 1 => a.(head := a.head.(nlink := f.q))
    case 2 => a.(head := a.head.(mode := ModeForm(f.w)))
    case 3 => a.(head := a.head.(uid := f.w))
    case 4 => a.(head := a.head.(gid := f.w))
    case 5 => a.(head := a.head.(rdev := f.q))
    case 6 => a.(head := a.head.(size := U64ToI64(f.q)))
    case 7 => a.(head := a.head.(blocks := U64ToI64(f.q)))
    case 8 => a.(atime := a.atime.(sec := U64ToI64(f.q)))
    case 9 => a.(atime := a.atime.(nsec := f.w))
    case 10 => a.(mtime := a.mtime.(sec := U64ToI64(f.q)))
    case 11 => a.(mtime := a.mtime.(nsec := f.w))
    case 12 => a.(ctime := a.ctime.(sec := U64ToI64(f.q)))
    case _ => a.(ctime := a.ctime.(nsec := f.w))
  }

  /** Assigns member `k` of `struct statvfs`. */
  function StatsMember(s: Stats, k: nat, v: u64): Stats
    requires k < 8
  {
    match k
    case 0 => s.(bsize := v)
    case 1 => s.(frsize := v)
    case 2 => s.(blocks := v)
    case 3 => s.(bfree := v)
    case 4 => s.(bavail := v)
    case 5 => s.(files := v)
    case 6 => s.(ffree := v)
    case _ => s.(namemax := v)
  }

  /** The structure after its first members have been assigned. */
  function WithMembers(a: Attr, fs: seq<Field>): Attr
    requires Typed(fs, ATTR_TYPES)
  {
    if fs == [] then a
    else var n := |fs| - 1; Member(WithMembers(a, fs[..n]), n, fs[n])
  }

  function WithStats(s: Stats, fs: seq<Field>): Stats
    requires Typed(fs, STATS_TYPES)
  {
    if fs == [] then s
    else var n := |fs| - 1; StatsMember(WithStats(s, fs[..n]), n, fs[n].q)
  }

  function AttrOf(fs: seq<Field>): Attr
    requires |fs| == 14 && Typed(fs, ATTR_TYPES)
  {
    Attr(AttrHead(fs[0].q, fs[1].q, ModeForm(fs[2].w), fs[3].w, fs[4].w, fs[5].q, U64ToI64(fs[6].q), U64ToI64(fs[7].q)),
         Time(U64ToI64(fs[8].q), fs[9].w), Time(U64ToI64(fs[10].q), fs[11].w), Time(U64ToI64(fs[12].q), fs[13].w))
  }

  function StatsOf(fs: seq<Field>): Stats
    requires |fs| == 8 && Typed(fs, STATS_TYPES)
  {
    Stats(fs[0].q, fs[1].q, fs[2].q, fs[3].q, fs[4].q, fs[5].q, fs[6].q, fs[7].q)
  }

  lemma OneMore(a: Attr, fs: seq<Field>, k: nat)
    requires k < |fs| && Typed(fs, ATTR_TYPES)
    ensures WithMembers(a, fs[..k + 1]) == Member(WithMembers(a, fs[..k]), k, fs[k])
  {
    hide Member;
    assert fs[..k + 1][..k] == fs[..k];
  }

  /** With all members assigned nothing of the old structure is left. */
  lemma AllMembers(a: Attr, fs: seq<Field>)
    requires |fs| == 14 && Typed(fs, ATTR_TYPES)
    ensures WithMembers(a, fs) == AttrOf(fs)
  {
    hide WithMembers, ModeForm, U64ToI64;
    FirstMembers(a, fs);
    OneMore(a, fs, 8);
    OneMore(a, fs, 9);
    OneMore(a, fs, 10);
    OneMore(a, fs, 11);
    OneMore(a, fs, 12);
    OneMore(a, fs, 13);
    assert fs[..14] == fs;
  }

  lemma FirstMembers(a: Attr, fs: seq<Field>)
    requires |fs| == 14 && Typed(fs, ATTR_TYPES)
    ensures WithMembers(a, fs[..8]) == a.(head := AttrOf(fs).head)
  {
    NoMembers(a, fs);
    hide WithMembers, ModeForm, U64ToI64;
    OneMore(a, fs, 0);
    OneMore(a, fs, 1);
    OneMore(a, fs, 2);
    OneMore(a, fs, 3);
    OneMore(a, fs, 4);
    OneMore(a, fs, 5);
    OneMore(a, fs, 6);
    OneMore(a, fs, 7);
  }

  lemma NoMembers(a: Attr, fs: seq<Field>)
    ensures WithMembers(a, fs[..0]) == a
  {
  }

  lemma OneMoreStat(s: Stats, fs: seq<Field>, k: nat)
    requires k < |fs| && Typed(fs, STATS_TYPES)
    ensures WithStats(s, fs[..k + 1]) == StatsMember(WithStats(s, fs[..k]), k, fs[k].q)
  {
    hide StatsMember;
    assert fs[..k + 1][..k] == fs[..k];
  }

  lemma AllStats(s: Stats, fs: seq<Field>)
    requires |fs| == 8 && Typed(fs, STATS_TYPES)
    ensures WithStats(s, fs) == StatsOf(fs)
  {
    assert WithStats(s, fs[..0]) == s;
    hide WithStats;
    OneMoreStat(s, fs, 0);
    OneMoreStat(s, fs, 1);
    OneMoreStat(s, fs, 2);
    OneMoreStat(s, fs, 3);
    OneMoreStat(s, fs, 4);
    OneMoreStat(s, fs, 5);
    OneMoreStat(s, fs, 6);
    OneMoreStat(s, fs, 7);
    assert fs[..8] == fs;
  }

  lemma LongestTyped(ts: seq<FieldType>, d: Bytes)
    ensures Typed(Longest(ts, d), ts)
    ensures DecodeFields(ts, d).Ok? <==> |Longest(ts, d)| == |ts|
    ensures DecodeFields(ts, d).Ok? ==> DecodeFields(ts, d).value.0 == Longest(ts, d)
  {
    hide Longest, DecodeFields;
    LongestTypes(ts, d);
    var fs := Longest(ts, d);
    forall i | 0 <= i < |fs| ensures TypeOf(fs[i]) == ts[i] { assert TypesOf(fs)[i] == ts[i]; }
    LongestIsMaximal(ts, d, |ts|);
    assert ts[..|ts|] == ts;
  }

  /** What `read_attr` makes of the bytes when it does not throw. */
  function ParseAttr(d: Bytes): Result<(Attr, Bytes)> {
    var (fs, r) :- DecodeFields(ATTR_TYPES, d);
    LongestTyped(ATTR_TYPES, d);
    Ok((AttrOf(fs), r))
  }

  function ParseStats(d: Bytes): Result<(Stats, Bytes)> {
    var (fs, r) :- DecodeFields(STATS_TYPES, d);
    LongestTyped(STATS_TYPES, d);
    Ok((StatsOf(fs), r))
  }

  /** The structure as `read_attr` leaves it, also when it throws half way. */
  function FillAttr(a: Attr, d: Bytes): Attr {
    LongestTyped(ATTR_TYPES, d);
    WithMembers(a, Longest(ATTR_TYPES, d))
  }

  function FillStats(s: Stats, d: Bytes): Stats {
    LongestTyped(STATS_TYPES, d);
    WithStats(s, Longest(STATS_TYPES, d))
  }

  lemma FilledIsParsed(a: Attr, d: Bytes)
    ensures ParseAttr(d).Ok? <==> |Longest(ATTR_TYPES, d)| == 14
    ensures ParseAttr(d).Ok? ==> FillAttr(a, d) == ParseAttr(d).value.0
  {
    hide Longest, DecodeFields, WithMembers, AttrOf;
    LongestTyped(ATTR_TYPES, d);
    if ParseAttr(d).Ok? { AllMembers(a, Longest(ATTR_TYPES, d)); }
  }

  lemma FilledStatsAreParsed(s: Stats, d: Bytes)
    ensures ParseStats(d).Ok? <==> |Longest(STATS_TYPES, d)| == 8
    ensures ParseStats(d).Ok? ==> FillStats(s, d) == ParseStats(d).value.0
  {
    hide Longest, DecodeFields, WithStats, StatsOf;
    LongestTyped(STATS_TYPES, d);
    if ParseStats(d).Ok? { AllStats(s, Longest(STATS_TYPES, d)); }
  }

  function Continue<T>(done: seq<T>, later: Result<(seq<T>, Bytes)>): Result<(seq<T>, Bytes)> {
    match later
    case Throw => Throw
    case Ok((l, r)) => Ok((done + l, r))
  }

  /** One field read on the way through a schema: what is still to come is what comes after it. */
  lemma NextField(ts: seq<FieldType>, k: nat, rest: Bytes, got: seq<Field>)
    requires k < |ts|
    ensures match DecodeField(ts[k], rest)
            case Throw => Longest(ts[k..], rest) == [] && DecodeFields(ts[k..], rest) == Throw
            case Ok((f, r)) =>
              && got + Longest(ts[k..], rest) == got + [f] + Longest(ts[k + 1..], r)
              && Continue(got, DecodeFields(ts[k..], rest)) == Continue(got + [f], DecodeFields(ts[k + 1..], r))
  {
    hide DecodeField;
    assert ts[k..][0] == ts[k] && ts[k..][1..] == ts[k + 1..];
    if DecodeField(ts[k], rest).Ok? {
      var (f, r) := DecodeField(ts[k], rest).value;
      assert got + ([f] + Longest(ts[k + 1..], r)) == got + [f] + Longest(ts[k + 1..], r);
      if DecodeFields(ts[k + 1..], r).Ok? {
        var later := DecodeFields(ts[k + 1..], r).value.0;
        assert got + ([f] + later) == got + [f] + later;
      }
    }
  }

  /** `messagereader`. */
  class Reader {
    const data: Bytes
    var pos: nat

    /** The cursor is inside the buffer. */
    ghost predicate Valid()
      reads this
    {
      pos <= |data|
    }

    /** The bytes still to be read. */
    function Rest(): Bytes
      requires Valid()
      reads this
    {
      data[pos..]
    }

    /** The read answered as the parser does, and on success the cursor is where the parser stopped. */
    ghost predicate Did<T>(r: Result<T>, parsed: Result<(T, Bytes)>)
      reads this
    {
      && Valid()
      && match parsed
         case Ok((v, rest)) => r == Ok(v) && Rest() == rest
         case Throw => r == Throw
    }

    /** `messagereader(std::string &)` takes over the buffer. */
    constructor (value: Bytes)
      ensures Valid() && data == value && Rest() == value
    {
      data, pos := value, 0;
    }

    method ReadU8() returns (r: Result<u8>)
      requires Valid()
      modifies this
      ensures Did(r, ParseU8(old(Rest())))
    {
      if pos < |data| {
        var value := data[pos];
        pos := pos + 1;
        return Ok(value);
      }
      return Throw;
    }

    method ReadU32() returns (r: Result<u32>)
      requires Valid()
      modifies this
      ensures Did(r, DecodeU32(old(Rest())))
    {
      hide U32Of;
      if pos + 3 < |data| {
        var value := U32Of(data[pos..pos + 4]);
        assert Rest()[..4] == data[pos..pos + 4] && Rest()[4..] == data[pos + 4..];
        pos := pos + 4;
        return Ok(value);
      }
      return Throw;
    }

    /** `read_u64` collects the eight bytes in a `uint32_t`. */
    method ReadU64() returns (r: Result<u64>)
      requires Valid()
      modifies this
      ensures Did(r, DecodeU64(old(Rest()))) && (r.Ok? ==> r.value < TWO32)
    {
      hide U32Of;
      if pos + 7 < |data| {
        var high: int := U32Of(data[pos..pos + 4]);
        var value := (high * TWO32 + U32Of(data[pos + 4..pos + 8])) % TWO32;
        assert Rest()[..4] == data[pos..pos + 4] && Rest()[4..8] == data[pos + 4..pos + 8];
        assert Rest()[8..] == data[pos + 8..];
        pos := pos + 8;
        return Ok(value);
      }
      return Throw;
    }

    method ReadBool() returns (r: Result<bool>)
      requires Valid()
      modifies this
      ensures Did(r, ParseBool(old(Rest())))
    {
      var value :- ReadU8();
      return Ok(1 == value);
    }

    method ReadI32() returns (r: Result<i32>)
      requires Valid()
      modifies this
      ensures Did(r, ParseI32(old(Rest())))
    {
      var value :- ReadU32();
      return Ok(U32ToI32(value));
    }

    /** `read_result`: the status map is the identity on Linux. */
    method ReadResult() returns (r: Result<i32>)
      requires Valid()
      modifies this
      ensures Did(r, ParseI32(old(Rest())))
    {
      r := ReadI32();
    }

    /** `read_str` and `read_bytes`. */
    method ReadBytes() returns (r: Result<Bytes>)
      requires Valid()
      modifies this
      ensures Did(r, DecodeData(old(Rest())))
    {
      hide U32Of;
      var size: u32 :- ReadU32();
      if pos + size <= |data| {
        var value := data[pos..pos + size];
        assert Rest()[..size] == value && Rest()[size..] == data[pos + size..];
        pos := pos + size;
        return Ok(value);
      }
      return Throw;
    }

    method ReadMode() returns (r: Result<u32>)
      requires Valid()
      modifies this
      ensures Did(r, ParseMode(old(Rest())))
    {
      var value :- ReadU32();
      var mode := ConvertMode(value);
      return Ok(mode);
    }

    method ReadAccessMode() returns (r: Result<u32>)
      requires Valid()
      modifies this
      ensures Did(r, ParseAccessMode(old(Rest())))
    {
      var value :- ReadU8();
      var mode := ConvertAccessMode(value);
      return Ok(mode);
    }

    method ReadOpenFlags() returns (r: Result<Word>)
      requires Valid()
      modifies this
      ensures Did(r, ParseOpenFlags(old(Rest())))
    {
      var value :- ReadU32();
      var flags := ToInt(LARGEFILE, value as Word);
      return Ok(flags);
    }

    /**
     `read_strings` appends to the caller's list.  `entries` is that list afterwards, also when the read throws
     half way: it has grown by exactly the entries that are whole.
     */
    method ReadStrings(list: seq<Bytes>) returns (ok: bool, entries: seq<Bytes>)
      requires Valid()
      modifies this
      ensures Valid() && entries == list + WholeEntries(old(Rest()))
      ensures ok <==> ParseStrings(old(Rest())).Ok?
      ensures ok ==> Did(Ok(entries), Continue(list, ParseStrings(old(Rest()))))
    {
      hide U32Of, DecodeData;
      entries := list;
      var count := ReadU32();
      if count.Throw? { return false, entries; }
      ghost var all, whole := DecodeAll(count.value, Rest()), Whole(count.value, Rest());
      ghost var got: seq<Bytes> := [];
      assert all.Ok? ==> [] + all.value.0 == all.value.0;
      for i := 0 to count.value
        invariant Valid() && entries == list + got
        invariant whole == got + Whole(count.value - i, Rest())
        invariant all == Continue(got, DecodeAll(count.value - i, Rest()))
      {
        var entry := ReadBytes();
        if entry.Throw? {
          return false, entries;
        }
        ghost var tail := DecodeAll(count.value - i - 1, Rest());
        ghost var later := Whole(count.value - i - 1, Rest());
        assert got + ([entry.value] + later) == got + [entry.value] + later;
        assert tail.Ok? ==> got + ([entry.value] + tail.value.0) == got + [entry.value] + tail.value.0;
        entries := entries + [entry.value];
        got := got + [entry.value];
      }
      assert got + [] == got;
      ok := true;
    }

    /** `read_time`. */
    method ReadTime() returns (r: Result<Time>)
      requires Valid()
      modifies this
      ensures Did(r, ParseTime(old(Rest())))
    {
      hide DecodeU64, DecodeU32;
      var sec :- ReadU64();
      var nsec :- ReadU32();
      return Ok(Time(sec, nsec));
    }

    /** A structure of types `ts` is being read from `d`, and `got` has come out so far. */
    ghost predicate Reading(ts: seq<FieldType>, d: Bytes, got: seq<Field>)
      reads this
    {
      && Valid() && |got| <= |ts|
      && Longest(ts, d) == got + Longest(ts[|got|..], Rest())
      && DecodeFields(ts, d) == Continue(got, DecodeFields(ts[|got|..], Rest()))
    }

    ghost predicate Stopped(ts: seq<FieldType>, d: Bytes, got: seq<Field>)
      reads this
    {
      Valid() && Longest(ts, d) == got && DecodeFields(ts, d) == Throw
    }

    lemma Begins(ts: seq<FieldType>)
      requires Valid()
      ensures Reading(ts, Rest(), [])
    {
      hide DecodeFields, Longest;
      assert ts[0..] == ts;
      if DecodeFields(ts, Rest()).Ok? {
        var fs := DecodeFields(ts, Rest()).value.0;
        assert [] + fs == fs;
      }
    }

    lemma Ends(ts: seq<FieldType>, d: Bytes, got: seq<Field>)
      requires Reading(ts, d, got) && |got| == |ts|
      ensures Longest(ts, d) == got && DecodeFields(ts, d) == Ok((got, Rest()))
    {
      assert ts[|ts|..] == [] && got + [] == got;
    }

    method NextU64(ghost ts: seq<FieldType>, ghost d: Bytes, ghost got: seq<Field>) returns (r: Result<u64>)
      requires Reading(ts, d, got) && |got| < |ts| && ts[|got|] == U64T
      modifies this
      ensures if r.Ok? then Reading(ts, d, got + [U64(r.value)]) else Stopped(ts, d, got)
    {
      hide DecodeFields, Longest, DecodeU64;
      NextField(ts, |got|, Rest(), got);
      r := ReadU64();
      assert got + [] == got;
    }

    method NextU32(ghost ts: seq<FieldType>, ghost d: Bytes, ghost got: seq<Field>) returns (r: Result<u32>)
      requires Reading(ts, d, got) && |got| < |ts| && ts[|got|] == U32T
      modifies this
      ensures if r.Ok? then Reading(ts, d, got + [U32(r.value)]) else Stopped(ts, d, got)
    {
      hide DecodeFields, Longest, DecodeU32;
      NextField(ts, |got|, Rest(), got);
      r := ReadU32();
      assert got + [] == got;
    }

    /** One assignment of `read_attr`: member `k` is read and stored, unless the read throws. */
    method NextMember(k: nat, before: Attr, ghost attr: Attr, ghost d: Bytes, ghost got: seq<Field>)
      returns (ok: bool, a: Attr, ghost got': seq<Field>)
      requires k == |got| < 14 && Typed(got, ATTR_TYPES) && Reading(ATTR_TYPES, d, got)
      requires before == WithMembers(attr, got)
      modifies this
      ensures Typed(got', ATTR_TYPES) && a == WithMembers(attr, got')
      ensures if ok then |got'| == k + 1 && Reading(ATTR_TYPES, d, got') else Stopped(ATTR_TYPES, d, got')
    {
      hide Reading, Stopped, Member;
      a, got' := before, got;
      if k == 2 || k == 3 || k == 4 || k == 9 || k == 11 || k == 13 {
        var w := NextU32(ATTR_TYPES, d, got);
        if w.Throw? { return false, a, got'; }
        a, got' := Member(a, k, U32(w.value)), got + [U32(w.value)];
      } else {
        var q := NextU64(ATTR_TYPES, d, got);
        if q.Throw? { return false, a, got'; }
        a, got' := Member(a, k, U64(q.value)), got + [U64(q.value)];
      }
      assert got'[..k] == got;
      ok := true;
    }

    /** The assignments of `read_attr` in front of the time stamps. */
    method ReadHead(attr: Attr, ghost d: Bytes) returns (ok: bool, a: Attr, ghost got: seq<Field>)
      requires Valid() && d == Rest()
      modifies this
      ensures Typed(got, ATTR_TYPES) && a == WithMembers(attr, got)
      ensures if ok then |got| == 8 && Reading(ATTR_TYPES, d, got) else Stopped(ATTR_TYPES, d, got)
    {
      Begins(ATTR_TYPES);
      assert WithMembers(attr, []) == attr;
      hide Reading, Stopped, WithMembers;
      ok, a, got := NextMember(0, attr, attr, d, []);
      if ok { ok, a, got := NextMember(1, a, attr, d, got); }
      if ok { ok, a, got := NextMember(2, a, attr, d, got); }
      if ok { ok, a, got := NextMember(3, a, attr, d, got); }
      if ok { ok, a, got := NextMember(4, a, attr, d, got); }
      if ok { ok, a, got := NextMember(5, a, attr, d, got); }
      if ok { ok, a, got := NextMember(6, a, attr, d, got); }
      if ok { ok, a, got := NextMember(7, a, attr, d, got); }
    }

    /**
     `read_attr` assigns the members of the caller's structure one by one.  `a` is that structure afterwards, also
     when the read throws half way.
     */
    method ReadAttr(attr: Attr) returns (ok: bool, a: Attr)
      requires Valid()
      modifies this
      ensures Valid() && a == FillAttr(attr, old(Rest()))
      ensures ok <==> ParseAttr(old(Rest())).Ok?
      ensures ok ==> Did(Ok(a), ParseAttr(old(Rest())))
    {
      hide Reading, Stopped, WithMembers, FillAttr, ParseAttr, Typed;
      ghost var d: Bytes, got: seq<Field> := Rest(), [];
      ok, a, got := ReadHead(attr, d);
      if ok { ok, a, got := NextMember(8, a, attr, d, got); }
      if ok { ok, a, got := NextMember(9, a, attr, d, got); }
      if ok { ok, a, got := NextMember(10, a, attr, d, got); }
      if ok { ok, a, got := NextMember(11, a, attr, d, got); }
      if ok { ok, a, got := NextMember(12, a, attr, d, got); }
      if ok { ok, a, got := NextMember(13, a, attr, d, got); }
      AttrEnds(ok, attr, a, d, got);
    }

    lemma AttrEnds(ok: bool, attr: Attr, a: Attr, d: Bytes, got: seq<Field>)
      requires Typed(got, ATTR_TYPES) && a == WithMembers(attr, got)
      requires if ok then |got| == 14 && Reading(ATTR_TYPES, d, got) else Stopped(ATTR_TYPES, d, got)
      ensures Valid() && a == FillAttr(attr, d) && (ok <==> ParseAttr(d).Ok?)
      ensures ok ==> Did(Ok(a), ParseAttr(d))
    {
      FilledIsParsed(attr, d);
      if ok { Ends(ATTR_TYPES, d, got); }
      hide WithMembers, DecodeFields, Longest, AttrOf;
    }

    /** One assignment of `read_statistics`. */
    method NextStat(k: nat, before: Stats, ghost stats: Stats, ghost d: Bytes, ghost got: seq<Field>)
      returns (ok: bool, s: Stats, ghost got': seq<Field>)
      requires k == |got| < 8 && Typed(got, STATS_TYPES) && Reading(STATS_TYPES, d, got)
      requires before == WithStats(stats, got)
      modifies this
      ensures Typed(got', STATS_TYPES) && s == WithStats(stats, got')
      ensures if ok then |got'| == k + 1 && Reading(STATS_TYPES, d, got') else Stopped(STATS_TYPES, d, got')
    {
      hide Reading, Stopped, StatsMember;
      s, got' := before, got;
      var q := NextU64(STATS_TYPES, d, got);
      if q.Throw? { return false, s, got'; }
      s, got' := StatsMember(s, k, q.value), got + [U64(q.value)];
      assert got'[..k] == got;
      ok := true;
    }

    /** `read_statistics`. */
    method ReadStatistics(stats: Stats) returns (ok: bool, s: Stats)
      requires Valid()
      modifies this
      ensures Valid() && s == FillStats(stats, old(Rest()))
      ensures ok <==> ParseStats(old(Rest())).Ok?
      ensures ok ==> Did(Ok(s), ParseStats(old(Rest())))
    {
      ghost var d: Bytes, got: seq<Field> := Rest(), [];
      Begins(STATS_TYPES);
      assert WithStats(stats, got) == stats;
      hide Reading, Stopped, WithStats, FillStats, ParseStats, Typed;
      ok, s, got := NextStat(0, stats, stats, d, got);
      if ok { ok, s, got := NextStat(1, s, stats, d, got); }
      if ok { ok, s, got := NextStat(2, s, stats, d, got); }
      if ok { ok, s, got := NextStat(3, s, stats, d, got); }
      if ok { ok, s, got := NextStat(4, s, stats, d, got); }
      if ok { ok, s, got := NextStat(5, s, stats, d, got); }
      if ok { ok, s, got := NextStat(6, s, stats, d, got); }
      if ok { ok, s, got := NextStat(7, s, stats, d, got); }
      StatsEnd(ok, stats, s, d, got);
    }

    lemma StatsEnd(ok: bool, stats: Stats, s: Stats, d: Bytes, got: seq<Field>)
      requires Typed(got, STATS_TYPES) && s == WithStats(stats, got)
      requires if ok then |got| == 8 && Reading(STATS_TYPES, d, got) else Stopped(STATS_TYPES, d, got)
      ensures Valid() && s == FillStats(stats, d) && (ok <==> ParseStats(d).Ok?)
      ensures ok ==> Did(Ok(s), ParseStats(d))
    {
      FilledStatsAreParsed(stats, d);
      if ok { Ends(STATS_TYPES, d, got); }
      hide WithStats, DecodeFields, Longest, StatsOf;
    }
  }
}
