/**
 What the provider does with a request that was cut short: the theorems about field lists,
 carried over to the reads of its handlers.
 */
module Truncated {
  import opened Bytes
  import opened Flags
  import opened Codec
  import opened Message
  import opened Calls
  import opened Remote

  /** The fields the handler for request type `t` reads. */
  function Schema(t: u8): seq<FieldType>
    requires 1 <= t <= 0x17
  {
    match t
    case 0x01 => [DataT, U8T]
    case 0x04 => [DataT, DataT]
    case 0x05 => [DataT, DataT]
    case 0x06 => [DataT, DataT, U8T]
    case 0x07 => [DataT, U32T]
    case 0x08 => [DataT, U32T, U32T]
    case 0x09 => [DataT, U64T, U64T]
    case 0x0a => [DataT, U8T, U64T]
    case 0x0b => [DataT, U32T]
    case 0x0c => [DataT, U32T, U32T]
    case 0x0d => [DataT, U32T]
    case 0x0e => [DataT, U64T]
    case 0x10 => [DataT, U32T, U64T, U64T]
    case 0x11 => [DataT, DataT, U64T, U64T]
    case 0x12 => [DataT, U32T]
    case 0x16 => [DataT, U64T, U32T, U64T, U32T, U64T]
    case 0x17 => []
    case _ => [DataT]
  }

  /** What is left after a field, if it can be read. */
  function After(t: FieldType, d: Bytes): Result<Bytes> {
    var (_, r) :- DecodeField(t, d);
    Ok(r)
  }

  function AfterAll(ts: seq<FieldType>, d: Bytes): Result<Bytes> {
    var (_, r) :- DecodeFields(ts, d);
    Ok(r)
  }

  lemma AfterCons(t: FieldType, ts: seq<FieldType>, d: Bytes)
    ensures AfterAll([t] + ts, d) == match After(t, d) case Throw => Throw case Ok(r) => AfterAll(ts, r)
  {
    hide DecodeField;
    assert ([t] + ts)[1..] == ts;
  }

  lemma After1(a: FieldType, d: Bytes)
    ensures AfterAll([a], d) == After(a, d)
  {
    hide After;
    AfterCons(a, [], d);
    assert [a] + [] == [a];
    assert forall r :: AfterAll([], r) == Ok(r);
  }

  lemma After2(a: FieldType, b: FieldType, d: Bytes)
    ensures AfterAll([a, b], d) == match After(a, d) case Throw => Throw case Ok(r) => After(b, r)
  {
    hide After, AfterAll;
    AfterCons(a, [b], d);
    assert [a] + [b] == [a, b];
    if After(a, d).Ok? { After1(b, After(a, d).value); }
  }

  lemma After3(a: FieldType, b: FieldType, c: FieldType, d: Bytes)
    ensures AfterAll([a, b, c], d) == match After(a, d) case Throw => Throw case Ok(r) => AfterAll([b, c], r)
  {
    hide After, AfterAll;
    AfterCons(a, [b, c], d);
    assert [a] + [b, c] == [a, b, c];
    if After(a, d).Ok? { After2(b, c, After(a, d).value); }
  }

  lemma After4(a: FieldType, b: FieldType, c: FieldType, e: FieldType, d: Bytes)
    ensures AfterAll([a, b, c, e], d) == match After(a, d) case Throw => Throw case Ok(r) => AfterAll([b, c, e], r)
  {
    hide After, AfterAll;
    AfterCons(a, [b, c, e], d);
    assert [a] + [b, c, e] == [a, b, c, e];
    if After(a, d).Ok? { After3(b, c, e, After(a, d).value); }
  }

  lemma UtimensSchemaDecides(d: Bytes)
    ensures ParseRequest(0x16, d).Ok? <==> AfterAll(Schema(0x16), d).Ok?
  {
    hide DecodeData, DecodeU32, DecodeU64, AfterAll;
    var tail: seq<FieldType> := [U64T, U32T, U64T];
    AfterCons(DataT, [U64T, U32T] + tail, d);
    assert [DataT] + ([U64T, U32T] + tail) == Schema(0x16);
    if After(DataT, d).Ok? {
      var r1 := After(DataT, d).value;
      AfterCons(U64T, [U32T] + tail, r1);
      assert [U64T] + ([U32T] + tail) == [U64T, U32T] + tail;
      if After(U64T, r1).Ok? {
        var r2 := After(U64T, r1).value;
        AfterCons(U32T, tail, r2);
        if After(U32T, r2).Ok? {
          var r3 := After(U32T, r2).value;
          After3(U64T, U32T, U64T, r3);
          if After(U64T, r3).Ok? { After2(U32T, U64T, After(U64T, r3).value); }
        }
      }
    }
  }

  lemma LongSchemaDecides(t: u8, d: Bytes)
    requires 1 <= t < 0x16 && |Schema(t)| >= 3
    ensures ParseRequest(t, d).Ok? <==> AfterAll(Schema(t), d).Ok?
  {
    hide DecodeData, DecodeU32, DecodeU64, AfterAll, ModeForm, AccessForm;
    var ts := Schema(t);
    var first := After(ts[0], d);
    if |ts| == 3 {
      After3(ts[0], ts[1], ts[2], d);
      if first.Ok? { After2(ts[1], ts[2], first.value); }
    } else {
      After4(ts[0], ts[1], ts[2], ts[3], d);
      if first.Ok? {
        After3(ts[1], ts[2], ts[3], first.value);
        var second := After(ts[1], first.value);
        if second.Ok? { After2(ts[2], ts[3], second.value); }
      }
    }
  }

  /** A handler reads its request exactly when the fields of its schema are there. */
  lemma SchemaDecides(t: u8, d: Bytes)
    requires 1 <= t <= 0x17
    ensures ParseRequest(t, d).Ok? <==> AfterAll(Schema(t), d).Ok?
  {
    hide ParseRequest;
    var ts := Schema(t);
    if t == 0x17 {
      assert AfterAll([], d) == Ok(d);
      NoFieldsRead(d);
    } else if t == 0x16 {
      UtimensSchemaDecides(d);
    } else if |ts| >= 3 {
      LongSchemaDecides(t, d);
    } else {
      ShortSchemaDecides(t, d);
    }
  }

  lemma NoFieldsRead(d: Bytes)
    ensures ParseRequest(0x17, d).Ok?
  {
  }

  lemma ShortSchemaDecides(t: u8, d: Bytes)
    requires 1 <= t < 0x16 && |Schema(t)| <= 2
    ensures ParseRequest(t, d).Ok? <==> AfterAll(Schema(t), d).Ok?
  {
    hide DecodeData, DecodeU32, DecodeU64, DecodeAll, AfterAll, ReceivedForm, ModeForm, AccessForm;
    var ts := Schema(t);
    if |ts| == 1 { After1(ts[0], d); } else { After2(ts[0], ts[1], d); }
  }

  /** The fields the proxy writes, as the provider's handler reads them. */
  function AsRead(c: Call): (fs: seq<Field>)
    ensures |fs| >= |Schema(TypeCode(c))|
  {
    if c.Mknod? then [Data(c.path), U32(ModeForm(c.mode)), U32(c.dev / TWO32), U32(c.dev % TWO32)]
    else RequestFields(c)
  }

  lemma AsReadSameBytes(c: Call)
    ensures EncodeFields(AsRead(c)) == EncodeFields(RequestFields(c))
  {
    if c.Mknod? {
      hide EncodeFields, EncodeData, U32Bytes, ModeForm;
      var path, mode := Data(c.path), U32(ModeForm(c.mode));
      var high, low := U32(c.dev / TWO32), U32(c.dev % TWO32);
      Spread3(path, mode, U64(c.dev), []);
      Spread4(path, mode, high, low, []);
      assert EncodeField(U64(c.dev)) + [] == EncodeField(high) + (EncodeField(low) + []);
      assert EncodeFields(RequestFields(c)) + [] == EncodeFields(RequestFields(c));
      assert EncodeFields(AsRead(c)) + [] == EncodeFields(AsRead(c));
    }
  }

  lemma WideSchemaFits(c: Call)
    requires Wide(c) || c.Utimens?
    ensures var n := |Schema(TypeCode(c))|;
            && |AsRead(c)| == n + (if c.Mknod? then 1 else 0) && TypesOf(AsRead(c)[..n]) == Schema(TypeCode(c))
  {
    hide ModeForm, I64ToU64;
  }

  lemma NarrowSchemaFits(c: Call)
    requires !Wide(c) && !c.Utimens?
    ensures var n := |Schema(TypeCode(c))|;
            && |AsRead(c)| == n + (if c.Mknod? then 1 else 0) && TypesOf(AsRead(c)[..n]) == Schema(TypeCode(c))
  {
    hide ModeForm, AccessForm, RenameForm, SentWord;
  }

  lemma SchemaFits(c: Call)
    ensures var n := |Schema(TypeCode(c))|;
            && |AsRead(c)| == n + (if c.Mknod? then 1 else 0) && TypesOf(AsRead(c)[..n]) == Schema(TypeCode(c))
  {
    hide AsRead, Schema, TypesOf;
    if Wide(c) || c.Utimens? { WideSchemaFits(c); } else { NarrowSchemaFits(c); }
  }

  /** What the handler reads of the request, and for `mknod` the four bytes it leaves. */
  lemma ReadPart(c: Call)
    ensures var e := EncodeFields(RequestFields(c));
            var n := |Schema(TypeCode(c))|;
            var unread := if c.Mknod? then 4 else 0;
            && n <= |AsRead(c)| && |e| >= unread
            && EncodeFields(AsRead(c)[..n]) == e[..|e| - unread]
            && TypesOf(AsRead(c)[..n]) == Schema(TypeCode(c))
  {
    AsReadSameBytes(c);
    SchemaFits(c);
    if c.Mknod? { assert AsRead(c)[3] == U32(c.dev % TWO32) && |Schema(TypeCode(c))| == 3; }
    hide EncodeFields, Schema, RequestFields, AsRead, TypesOf, U32Bytes;
    var n := |Schema(TypeCode(c))|;
    var e := EncodeFields(RequestFields(c));
    if c.Mknod? {
      var low := U32(c.dev % TWO32);
      var front := AsRead(c)[..3];
      assert AsRead(c) == front + [low];
      EncodeSnoc(front, low);
      assert e == EncodeFields(front) + EncodeField(low) && |EncodeField(low)| == 4;
    } else {
      assert AsRead(c)[..n] == AsRead(c) && e[..|e|] == e;
    }
  }

  lemma NoListFields(c: Call)
    ensures forall f | f in AsRead(c) :: Delimited(f)
  {
  }

  /**
   A request body cut short anywhere makes its handler throw, with one exception: of a `mknod` request
   the last four bytes are never read, so losing some of them goes unnoticed.
   */
  lemma CutBody(c: Call, k: nat)
    requires k < |EncodeFields(RequestFields(c))|
    ensures ParseRequest(TypeCode(c), EncodeFields(RequestFields(c))[..k]).Ok?
            <==> c.Mknod? && k >= |EncodeFields(RequestFields(c))| - 4
  {
    hide EncodeFields, ParseRequest, Schema, RequestFields, AsRead, TypesOf, DecodeFields, Delimited, ReceivedAll;
    var t, e := TypeCode(c), EncodeFields(RequestFields(c));
    var fs := AsRead(c)[..|Schema(t)|];
    ReadPart(c);
    NoListFields(c);
    SchemaDecides(t, e[..k]);
    var part := EncodeFields(fs);
    if k < |part| {
      assert e[..k] == part[..k];
      StrictPrefixThrows(fs, k);
    } else {
      assert e[..k] == part + e[..k][|part|..];
      RoundTrip(fs, e[..k][|part|..]);
    }
  }

  /** The same for whole messages: a truncated request is neither run nor answered, `mknod` excepted. */
  lemma CutRequest<S(!new)>(fs: Backend<S>, s: S, id: u32, c: Call, k: nat)
    requires Honest(fs) && k < |RequestMessage(id, c)|
    ensures var m := RequestMessage(id, c);
            if c.Mknod? && k >= |m| - 4 then Dispatch(fs, s, m[..k]) == Dispatch(fs, s, m)
            else Dispatch(fs, s, m[..k]) == (s, Throw)
  {
    hide EncodeFields, ParseRequest, RequestFields, IdOf, DecodeU32, ParseU8, MessageOf, TypeCode;
    var m := RequestMessage(id, c);
    HeaderOf(id, TypeCode(c), RequestFields(c));
    MknodBodyLength(c);
    if k < 5 {
      AnsweredIff(fs, s, m[..k]);
    } else {
      assert m[..k][5..] == m[5..][..k - 5];
      assert m[..k][4..][1..] == m[..k][5..];
      HeadOfCut(m, k);
      CutBody(c, k - 5);
      if c.Mknod? && k >= |m| - 4 { CutMknod(c, k - 5); }
      RequestIsServed(fs, s, id, c);
    }
  }

  lemma HeadOfCut(m: Bytes, k: nat)
    requires 5 <= k <= |m|
    ensures DecodeU32(m[..k]).Ok? && DecodeU32(m).Ok? && DecodeU32(m[..k]).value.0 == DecodeU32(m).value.0
    ensures DecodeU32(m[..k]).value.1 == m[..k][4..] && ParseU8(m[..k][4..]) == Ok((m[4], m[..k][4..][1..]))
  {
    hide U32Of;
    assert m[..k][..4] == m[..4];
  }

  /** The cut `mknod` is the same call. */
  lemma CutMknod(c: Call, k: nat)
    requires c.Mknod? && |EncodeFields(RequestFields(c))| - 4 <= k <= |EncodeFields(RequestFields(c))|
    ensures ParseRequest(TypeCode(c), EncodeFields(RequestFields(c))[..k]) == Ok(Normal(c))
  {
    hide EncodeFields, EncodeField, DecodeData, DecodeU32, ModeForm, Clip, U32Bytes;
    var e := EncodeFields(RequestFields(c));
    var path, mode := Data(c.path), U32(ModeForm(c.mode));
    var high, low := U32(c.dev / TWO32), U32(c.dev % TWO32);
    AsReadSameBytes(c);
    Spread4(path, mode, high, low, []);
    assert e + [] == e;
    SingleWord(c.dev % TWO32);
    var tail := EncodeField(low)[..k - (|e| - 4)];
    assert e[..k] == EncodeField(path) + (EncodeField(mode) + (EncodeField(high) + tail));
    DataArrives(c.path, EncodeField(mode) + (EncodeField(high) + tail));
    ModeArrives(c.mode, EncodeField(high) + tail);
    U32Arrives(c.dev / TWO32, tail);
  }

  lemma SingleWord(w: u32)
    ensures |EncodeField(U32(w))| == 4
  {
    hide U32Bytes;
  }

  lemma MknodBodyLength(c: Call)
    ensures c.Mknod? ==> |EncodeFields(RequestFields(c))| >= 4
  {
    hide EncodeFields, Schema, RequestFields, AsRead;
    ReadPart(c);
  }
}
