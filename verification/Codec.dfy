/**
 The wire format as a printer and a parser over lists of typed fields.

 `DecodeField` works on the bytes that remain to be read, so a reader's cursor is
 the length of what has been consumed.  The parser follows the code where it
 differs from the protocol document: a 64-bit field is read modulo 2^32.
 */
module Codec {
  import opened Bytes

  datatype Field =
    | U8(b: u8)
    | U32(w: u32)
    | U64(q: u64)
    | Data(s: Bytes)
    | Strings(l: seq<Bytes>)

  datatype FieldType = U8T | U32T | U64T | DataT | StringsT

  function TypeOf(f: Field): FieldType {
    match f
    case U8(_) => U8T
    case U32(_) => U32T
    case U64(_) => U64T
    case Data(_) => DataT
    case Strings(_) => StringsT
  }

  function TypesOf(fs: seq<Field>): seq<FieldType> {
    seq(|fs|, i requires 0 <= i < |fs| => TypeOf(fs[i]))
  }

  // ----- Printer -----

  /** What survives of a string whose length is stored in 32 bits. */
  function Clip(s: Bytes): (r: Bytes)
    ensures |r| < TWO32 && r <= s
  {
    s[..|s| % TWO32]
  }

  function EncodeData(s: Bytes): Bytes {
    U32Bytes(|s| % TWO32) + Clip(s)
  }

  function EncodeAll(l: seq<Bytes>): Bytes {
    if l == [] then [] else EncodeData(l[0]) + EncodeAll(l[1..])
  }

  function EncodeField(f: Field): Bytes {
    match f
    case U8(b) => [b]
    case U32(w) => U32Bytes(w)
    case U64(q) => U64Bytes(q)
    case Data(s) => EncodeData(s)
    case Strings(l) => U32Bytes(|l| % TWO32) + EncodeAll(l)
  }

  function EncodeFields(fs: seq<Field>): Bytes {
    if fs == [] then [] else EncodeField(fs[0]) + EncodeFields(fs[1..])
  }

  // ----- Parser -----

  function DecodeU32(d: Bytes): Result<(u32, Bytes)> {
    if |d| < 4 then Throw else Ok((U32Of(d[..4]), d[4..]))
  }

  function DecodeU64(d: Bytes): Result<(u64, Bytes)> {
    if |d| < 8 then Throw
    else
      var high: int := U32Of(d[..4]);
      // the 64-bit sum is accumulated in a uint32_t
      Ok(((high * TWO32 + U32Of(d[4..8])) % TWO32, d[8..]))
  }

  function DecodeData(d: Bytes): Result<(Bytes, Bytes)> {
    var (n, r) :- DecodeU32(d);
    if n <= |r| then Ok((r[..n], r[n..])) else Throw
  }

  function DecodeAll(n: nat, d: Bytes): Result<(seq<Bytes>, Bytes)> {
    if n == 0 then Ok(([], d))
    else
      var (s, r) :- DecodeData(d);
      var (l, r') :- DecodeAll(n - 1, r);
      Ok(([s] + l, r'))
  }

  function DecodeField(t: FieldType, d: Bytes): Result<(Field, Bytes)> {
    match t
    case U8T => if d == [] then Throw else Ok((U8(d[0]), d[1..]))
    case U32T => var (v, r) :- DecodeU32(d); Ok((U32(v), r))
    case U64T => var (v, r) :- DecodeU64(d); Ok((U64(v), r))
    case DataT => var (s, r) :- DecodeData(d); Ok((Data(s), r))
    case StringsT =>
      var (n, r) :- DecodeU32(d);
      var (l, r') :- DecodeAll(n, r);
      Ok((Strings(l), r'))
  }

  function DecodeFields(ts: seq<FieldType>, d: Bytes): Result<(seq<Field>, Bytes)> {
    if ts == [] then Ok(([], d))
    else
      var (f, r) :- DecodeField(ts[0], d);
      var (fs, r') :- DecodeFields(ts[1..], r);
      Ok(([f] + fs, r'))
  }

  // ----- Round trip -----

  /** The value a field has after one trip over the wire. */
  function Received(f: Field): Field {
    match f
    case U64(q) => U64(q % TWO32)
    case Data(s) => Data(Clip(s))
    case Strings(l) => Strings(ClipAll(l[..|l| % TWO32]))
    case _ => f
  }

  function ClipAll(l: seq<Bytes>): seq<Bytes> {
    seq(|l|, i requires 0 <= i < |l| => Clip(l[i]))
  }

  function ReceivedAll(fs: seq<Field>): seq<Field> {
    seq(|fs|, i requires 0 <= i < |fs| => Received(fs[i]))
  }

  /** The values that fit the format: exactly the ones the wire keeps. */
  predicate Fits(f: Field) {
    match f
    case U64(q) => q < TWO32
    case Data(s) => |s| < TWO32
    case Strings(l) => |l| < TWO32 && forall s | s in l :: |s| < TWO32
    case _ => true
  }

  /** A list field announces its length modulo 2^32 but prints every entry. */
  predicate Delimited(f: Field) {
    f.Strings? ==> |f.l| < TWO32
  }

  lemma ReceivedIffFits(f: Field)
    ensures Received(f) == f <==> Fits(f)
  {
    match f
    case Data(s) =>
      if |s| >= TWO32 { assert |Clip(s)| != |s|; }
    case Strings(l) =>
      if Fits(f) {
        assert l[..|l| % TWO32] == l;
        assert ClipAll(l) == l by {
          forall i | 0 <= i < |l| ensures Clip(l[i]) == l[i] { assert l[i] in l; }
        }
      } else if |l| < TWO32 {
        assert l[..|l| % TWO32] == l;
        var s :| s in l && |s| >= TWO32;
        var i :| 0 <= i < |l| && l[i] == s;
        assert |ClipAll(l)[i]| != |l[i]|;
      } else {
        assert |ClipAll(l[..|l| % TWO32])| != |l|;
      }
    case _ =>
  }

  lemma DataRoundTrip(s: Bytes, rest: Bytes)
    ensures DecodeData(EncodeData(s) + rest) == Ok((Clip(s), rest))
  {
    hide U32Bytes, U32Of;
    var n := |s| % TWO32;
    var d := EncodeData(s) + rest;
    assert d[..4] == U32Bytes(n);
    assert d[4..] == Clip(s) + rest;
    U32OfBytes(n);
    assert (Clip(s) + rest)[..n] == Clip(s);
    assert (Clip(s) + rest)[n..] == rest;
  }

  /** Reading only the first `n` of the printed entries leaves the others in place. */
  lemma {:induction false} AllRoundTrip(l: seq<Bytes>, n: nat, rest: Bytes)
    requires n <= |l|
    ensures DecodeAll(n, EncodeAll(l) + rest) == Ok((ClipAll(l[..n]), EncodeAll(l[n..]) + rest))
  {
    hide EncodeData, DecodeData, Clip;
    if n == 0 {
      assert l[0..] == l;
    } else {
      DataRoundTrip(l[0], EncodeAll(l[1..]) + rest);
      assert EncodeAll(l) + rest == EncodeData(l[0]) + (EncodeAll(l[1..]) + rest);
      AllRoundTrip(l[1..], n - 1, rest);
      assert l[1..][n - 1..] == l[n..];
      assert [Clip(l[0])] + ClipAll(l[1..][..n - 1]) == ClipAll(l[..n]);
    }
  }

  lemma U64RoundTrip(q: u64, rest: Bytes)
    ensures DecodeU64(U64Bytes(q) + rest) == Ok((q % TWO32, rest))
  {
    hide U32Bytes, U32Of;
    var d := U64Bytes(q) + rest;
    assert d[..4] == U32Bytes(q / TWO32) && d[4..8] == U32Bytes(q % TWO32) && d[8..] == rest;
    U32OfBytes(q / TWO32);
    U32OfBytes(q % TWO32);
  }

  lemma StringsRoundTrip(l: seq<Bytes>, rest: Bytes)
    ensures var n := |l| % TWO32;
            DecodeField(StringsT, EncodeField(Strings(l)) + rest)
            == Ok((Received(Strings(l)), EncodeAll(l[n..]) + rest))
  {
    hide U32Bytes, U32Of;
    var n := |l| % TWO32;
    var d := EncodeField(Strings(l)) + rest;
    assert d[..4] == U32Bytes(n) && d[4..] == EncodeAll(l) + rest;
    U32OfBytes(n);
    AllRoundTrip(l, n, rest);
  }

  lemma FieldRoundTrip(f: Field, rest: Bytes)
    requires Delimited(f)
    ensures DecodeField(TypeOf(f), EncodeField(f) + rest) == Ok((Received(f), rest))
  {
    hide U32Bytes, U32Of, U64Bytes, EncodeData, DecodeData, DecodeAll, DecodeU64, Clip, ClipAll;
    match f
    case U8(b) => assert ([b] + rest)[1..] == rest;
    case U32(w) =>
      var d := U32Bytes(w) + rest;
      assert d[..4] == U32Bytes(w) && d[4..] == rest;
      U32OfBytes(w);
    case U64(q) => U64RoundTrip(q, rest);
    case Data(s) => DataRoundTrip(s, rest);
    case Strings(l) =>
      StringsRoundTrip(l, rest);
      assert l[|l|..] == [] && EncodeAll([]) + rest == rest;
  }

  /** Reading back with the writer's schema returns the fields and stops at their end. */
  lemma {:induction false} RoundTrip(fs: seq<Field>, rest: Bytes)
    requires forall f | f in fs :: Delimited(f)
    ensures DecodeFields(TypesOf(fs), EncodeFields(fs) + rest) == Ok((ReceivedAll(fs), rest))
  {
    hide EncodeField, DecodeField, Received;
    if fs == [] {
      assert EncodeFields(fs) + rest == rest;
    } else {
      var tail := EncodeFields(fs[1..]) + rest;
      assert EncodeFields(fs) + rest == EncodeField(fs[0]) + tail;
      FieldRoundTrip(fs[0], tail);
      RoundTrip(fs[1..], rest);
      assert TypesOf(fs)[0] == TypeOf(fs[0]) && TypesOf(fs)[1..] == TypesOf(fs[1..]);
      assert [Received(fs[0])] + ReceivedAll(fs[1..]) == ReceivedAll(fs);
    }
  }

  // ----- Self-delimiting and safe -----

  predicate IsSuffix(r: Bytes, d: Bytes) {
    |r| <= |d| && r == d[|d| - |r|..]
  }

  lemma SelfSuffix(d: Bytes)
    ensures IsSuffix(d, d)
  {
  }

  lemma SuffixOfSuffix(a: Bytes, b: Bytes, c: Bytes)
    requires IsSuffix(a, b) && IsSuffix(b, c)
    ensures IsSuffix(a, c)
  {
  }

  lemma CutExtended(d: Bytes, more: Bytes, k: nat)
    requires k <= |d|
    ensures (d + more)[..k] == d[..k] && (d + more)[k..] == d[k..] + more && IsSuffix(d[k..], d)
  {
  }

  lemma DataExtends(d: Bytes, more: Bytes)
    requires DecodeData(d).Ok?
    ensures var (s, r) := DecodeData(d).value;
            DecodeData(d + more) == Ok((s, r + more)) && |d| == 4 + |s| + |r| && IsSuffix(r, d)
  {
    hide U32Bytes, U32Of;
    var n := U32Of(d[..4]);
    CutExtended(d, more, 4);
    CutExtended(d[4..], more, n);
  }

  lemma {:induction false} AllExtends(n: nat, d: Bytes, more: Bytes)
    requires DecodeAll(n, d).Ok?
    ensures var (l, r) := DecodeAll(n, d).value;
            DecodeAll(n, d + more) == Ok((l, r + more)) && |l| == n
            && 4 * n + |r| <= |d| && IsSuffix(r, d)
  {
    hide DecodeData, IsSuffix;
    if n == 0 {
      SelfSuffix(d);
    } else {
      DataExtends(d, more);
      var r := DecodeData(d).value.1;
      AllExtends(n - 1, r, more);
      SuffixOfSuffix(DecodeAll(n - 1, r).value.1, r, d);
    }
  }

  lemma FieldExtends(t: FieldType, d: Bytes, more: Bytes)
    requires DecodeField(t, d).Ok?
    ensures var (f, r) := DecodeField(t, d).value;
            DecodeField(t, d + more) == Ok((f, r + more)) && TypeOf(f) == t
            && |r| < |d| && IsSuffix(r, d)
  {
    hide U32Of, IsSuffix, DecodeData, DecodeAll;
    match t
    case U8T => CutExtended(d, more, 1);
    case U32T => CutExtended(d, more, 4);
    case U64T =>
      CutExtended(d, more, 4);
      CutExtended(d, more, 8);
      assert (d + more)[4..8] == d[4..8];
    case DataT => DataExtends(d, more);
    case StringsT =>
      CutExtended(d, more, 4);
      AllExtends(U32Of(d[..4]), d[4..], more);
      SuffixOfSuffix(DecodeAll(U32Of(d[..4]), d[4..]).value.1, d[4..], d);
  }

  /**
   A successful read gives the same answer on every longer buffer, and what it leaves is
   a suffix of what it was given.
   */
  lemma {:induction false} Extends(ts: seq<FieldType>, d: Bytes, more: Bytes)
    requires DecodeFields(ts, d).Ok?
    ensures var (fs, r) := DecodeFields(ts, d).value;
            DecodeFields(ts, d + more) == Ok((fs, r + more)) && TypesOf(fs) == ts
            && IsSuffix(r, d)
  {
    hide DecodeField, IsSuffix;
    if ts == [] {
      SelfSuffix(d);
    } else {
      FieldExtends(ts[0], d, more);
      var r := DecodeField(ts[0], d).value.1;
      Extends(ts[1..], r, more);
      SuffixOfSuffix(DecodeFields(ts[1..], r).value.1, r, d);
    }
  }

  /** A message cut short anywhere makes the reader throw. */
  lemma StrictPrefixThrows(fs: seq<Field>, k: nat)
    requires forall f | f in fs :: Delimited(f)
    requires k < |EncodeFields(fs)|
    ensures DecodeFields(TypesOf(fs), EncodeFields(fs)[..k]) == Throw
  {
    hide DecodeFields, EncodeFields, IsSuffix, ReceivedAll;
    var e := EncodeFields(fs);
    if DecodeFields(TypesOf(fs), e[..k]).Ok? {
      Extends(TypesOf(fs), e[..k], e[k..]);
      assert e[..k] + e[k..] == e == e + [];
      RoundTrip(fs, []);
      assert false;
    }
  }

  lemma DataCanonical(d: Bytes)
    requires DecodeData(d).Ok?
    ensures var (s, r) := DecodeData(d).value; |s| < TWO32 && EncodeData(s) + r == d
  {
    hide U32Bytes, U32Of;
    BytesOfU32(d[..4]);
    var (s, r) := DecodeData(d).value;
    assert |s| == U32Of(d[..4]) && Clip(s) == s by { assert |s| % TWO32 == |s|; }
    hide Clip;
    assert U32Bytes(|s|) + s + r == d[..4] + (s + r);
    assert d[4..] == s + r;
  }

  lemma {:induction false} AllCanonical(n: nat, d: Bytes)
    requires DecodeAll(n, d).Ok?
    ensures var (l, r) := DecodeAll(n, d).value; |l| == n && EncodeAll(l) + r == d
  {
    hide DecodeData, EncodeData;
    if n != 0 {
      var (s, r) := DecodeData(d).value;
      var (l, r') := DecodeAll(n - 1, r).value;
      DataCanonical(d);
      AllCanonical(n - 1, r);
      assert ([s] + l)[1..] == l;
      assert EncodeData(s) + EncodeAll(l) + r' == EncodeData(s) + (EncodeAll(l) + r');
    }
  }

  lemma StringsCanonical(d: Bytes)
    requires DecodeField(StringsT, d).Ok?
    ensures var (f, r) := DecodeField(StringsT, d).value; EncodeField(f) + r == d
  {
    hide U32Bytes, U32Of, EncodeAll, DecodeAll;
    var n := U32Of(d[..4]);
    var (l, r) := DecodeAll(n, d[4..]).value;
    BytesOfU32(d[..4]);
    AllCanonical(n, d[4..]);
    assert n % TWO32 == n;
    assert U32Bytes(n) + EncodeAll(l) + r == d[..4] + d[4..];
  }

  lemma FieldCanonical(t: FieldType, d: Bytes)
    requires t != U64T && DecodeField(t, d).Ok?
    ensures var (f, r) := DecodeField(t, d).value; EncodeField(f) + r == d
  {
    hide U32Bytes, U32Of;
    match t
    case U8T =>
    case U32T => BytesOfU32(d[..4]);
    case DataT => DataCanonical(d);
    case StringsT => StringsCanonical(d);
  }

  /** Apart from 64-bit fields, a message has only one byte form: printing what was read restores it. */
  lemma {:induction false} Canonical(ts: seq<FieldType>, d: Bytes)
    requires U64T !in ts && DecodeFields(ts, d).Ok?
    ensures var (fs, r) := DecodeFields(ts, d).value; EncodeFields(fs) + r == d
  {
    hide EncodeField, DecodeField;
    if ts != [] {
      var (f, r) := DecodeField(ts[0], d).value;
      var (fs, r') := DecodeFields(ts[1..], r).value;
      FieldCanonical(ts[0], d);
      Canonical(ts[1..], r);
      assert ([f] + fs)[1..] == fs;
      assert EncodeField(f) + EncodeFields(fs) + r' == EncodeField(f) + (EncodeFields(fs) + r');
    }
  }

  // ----- Exactness of the round trip -----

  /** Whatever was read would take up as many bytes as were consumed, 64-bit fields included. */
  lemma FieldLength(t: FieldType, d: Bytes)
    requires DecodeField(t, d).Ok?
    ensures var (f, r) := DecodeField(t, d).value;
            Delimited(f) && TypeOf(f) == t && |d| == |EncodeField(f)| + |r|
  {
    hide U32Bytes, U32Of, EncodeData, DecodeData;
    if t != U64T { FieldCanonical(t, d); }
    if t.StringsT? { AllCanonical(U32Of(d[..4]), d[4..]); }
  }

  lemma {:induction false} ConsumedLength(ts: seq<FieldType>, d: Bytes)
    requires DecodeFields(ts, d).Ok?
    ensures var (fs, r) := DecodeFields(ts, d).value;
            |d| == |EncodeFields(fs)| + |r| && forall f | f in fs :: Delimited(f)
  {
    hide EncodeField, DecodeField, Delimited;
    if ts != [] {
      var (f, r) := DecodeField(ts[0], d).value;
      FieldLength(ts[0], d);
      ConsumedLength(ts[1..], r);
      var fs := DecodeFields(ts[1..], r).value.0;
      assert ([f] + fs)[1..] == fs;
    }
  }

  lemma {:induction false} ClippedLength(l: seq<Bytes>)
    ensures |EncodeAll(ClipAll(l))| == |EncodeAll(l)| >= 4 * |l|
  {
    hide U32Bytes;
    if l != [] {
      ClippedLength(l[1..]);
      assert ClipAll(l)[1..] == ClipAll(l[1..]);
    }
  }

  lemma {:induction false} EncodeAllAppend(a: seq<Bytes>, b: seq<Bytes>)
    ensures EncodeAll(a + b) == EncodeAll(a) + EncodeAll(b)
  {
    hide EncodeData;
    if a == [] {
      assert a + b == b;
    } else {
      assert (a + b)[1..] == a[1..] + b;
      EncodeAllAppend(a[1..], b);
    }
  }

  lemma ClippedTwice(s: Bytes)
    ensures Clip(Clip(s)) == Clip(s) && |EncodeData(Clip(s))| == |EncodeData(s)|
  {
    hide U32Bytes;
  }

  lemma ListLength(l: seq<Bytes>)
    ensures var n := |l| % TWO32;
            && |EncodeAll(ClipAll(l[..n]))| <= |EncodeAll(l)|
            && (|EncodeAll(ClipAll(l[..n]))| == |EncodeAll(l)| <==> |l| < TWO32)
  {
    hide EncodeAll, ClipAll;
    var n := |l| % TWO32;
    ClippedLength(l[..n]);
    ClippedLength(l[n..]);
    EncodeAllAppend(l[..n], l[n..]);
    assert l[..n] + l[n..] == l;
    if |l| < TWO32 { assert l[..n] == l; }
  }

  /** A received field is printed in as many bytes as were sent, except that entries of an overlong list are lost. */
  lemma ReceivedLength(f: Field)
    ensures |EncodeField(Received(f))| <= |EncodeField(f)|
    ensures |EncodeField(Received(f))| == |EncodeField(f)| <==> Delimited(f)
  {
    hide U32Bytes, Clip, EncodeData, EncodeAll, ClipAll;
    match f
    case Data(s) => ClippedTwice(s);
    case Strings(l) => ListLength(l);
    case _ =>
  }

  lemma {:induction false} ReceivedAllLength(fs: seq<Field>)
    ensures |EncodeFields(ReceivedAll(fs))| <= |EncodeFields(fs)|
    ensures |EncodeFields(ReceivedAll(fs))| == |EncodeFields(fs)| <==> forall f | f in fs :: Delimited(f)
  {
    hide EncodeField, Received, Delimited;
    if fs != [] {
      ReceivedLength(fs[0]);
      ReceivedAllLength(fs[1..]);
      assert ReceivedAll(fs)[1..] == ReceivedAll(fs[1..]);
      assert forall f | f in fs :: f == fs[0] || f in fs[1..];
    }
  }

  /** The condition of the round trip is exact: the consumed length leaves no other possibility. */
  lemma RoundTripIffDelimited(fs: seq<Field>, rest: Bytes)
    ensures DecodeFields(TypesOf(fs), EncodeFields(fs) + rest) == Ok((ReceivedAll(fs), rest))
            <==> forall f | f in fs :: Delimited(f)
  {
    hide DecodeFields, EncodeFields, ReceivedAll, Delimited;
    if forall f | f in fs :: Delimited(f) {
      RoundTrip(fs, rest);
    } else if DecodeFields(TypesOf(fs), EncodeFields(fs) + rest) == Ok((ReceivedAll(fs), rest)) {
      ConsumedLength(TypesOf(fs), EncodeFields(fs) + rest);
      ReceivedAllLength(fs);
      assert false;
    }
  }

  /** An input that shows it: the count of 2^32 empty entries is stored as 0, and the entries stay unread. */
  lemma OverlongList(rest: Bytes)
    ensures var l: seq<Bytes> := seq(TWO32, i => []);
            DecodeField(StringsT, EncodeField(Strings(l)) + rest) == Ok((Strings([]), EncodeAll(l) + rest))
            && |EncodeAll(l)| >= 4 * TWO32
  {
    hide DecodeField, EncodeField;
    var l: seq<Bytes> := seq(TWO32, i => []);
    StringsRoundTrip(l, rest);
    ClippedLength(l);
    assert |l| % TWO32 == 0 && l[0..] == l && ClipAll(l[..0]) == [];
  }

  /** The fields come back unchanged exactly when each of them fits. */
  lemma LosslessIffFits(fs: seq<Field>, rest: Bytes)
    ensures DecodeFields(TypesOf(fs), EncodeFields(fs) + rest) == Ok((fs, rest))
            <==> forall f | f in fs :: Fits(f)
  {
    hide DecodeFields, EncodeFields, Fits, Received, Delimited;
    forall f | f in fs ensures (Received(f) == f <==> Fits(f)) && (Fits(f) ==> Delimited(f)) {
      ReceivedIffFits(f);
      FittingIsDelimited(f);
    }
    if forall f | f in fs :: Delimited(f) {
      RoundTrip(fs, rest);
      assert ReceivedAll(fs) == fs <==> forall i | 0 <= i < |fs| :: Received(fs[i]) == fs[i];
    } else if DecodeFields(TypesOf(fs), EncodeFields(fs) + rest) == Ok((fs, rest)) {
      ConsumedLength(TypesOf(fs), EncodeFields(fs) + rest);
      assert false;
    }
  }

  lemma FittingIsDelimited(f: Field)
    ensures Fits(f) ==> Delimited(f)
  {
  }

  // ----- What a read that throws has read before -----

  /** The fields that are read before the first throw. */
  function Longest(ts: seq<FieldType>, d: Bytes): (fs: seq<Field>)
    ensures |fs| <= |ts|
  {
    if ts == [] then []
    else match DecodeField(ts[0], d)
         case Throw => []
         case Ok((f, r)) => [f] + Longest(ts[1..], r)
  }

  /** They are the longest part of the schema that decodes. */
  lemma {:induction false} LongestIsMaximal(ts: seq<FieldType>, d: Bytes, k: nat)
    requires k <= |ts|
    ensures DecodeFields(ts[..k], d).Ok? <==> k <= |Longest(ts, d)|
    ensures DecodeFields(ts[..k], d).Ok? ==> DecodeFields(ts[..k], d).value.0 == Longest(ts, d)[..k]
  {
    hide DecodeField;
    if k > 0 && DecodeField(ts[0], d).Ok? {
      LongestIsMaximal(ts[1..], DecodeField(ts[0], d).value.1, k - 1);
      assert ts[..k][1..] == ts[1..][..k - 1];
    }
  }

  lemma {:induction false} LongestTypes(ts: seq<FieldType>, d: Bytes)
    ensures TypesOf(Longest(ts, d)) == ts[..|Longest(ts, d)|]
  {
    hide DecodeField;
    if ts != [] && DecodeField(ts[0], d).Ok? {
      LongestTypes(ts[1..], DecodeField(ts[0], d).value.1);
      FieldExtends(ts[0], d, []);
    }
  }

  /** The entries of a list that are read before the first throw. */
  function Whole(n: nat, d: Bytes): (l: seq<Bytes>)
    ensures |l| <= n
  {
    if n == 0 then []
    else match DecodeData(d)
         case Throw => []
         case Ok((s, r)) => [s] + Whole(n - 1, r)
  }

  function WholeEntries(d: Bytes): seq<Bytes> {
    match DecodeU32(d)
    case Throw => []
    case Ok((n, r)) => Whole(n, r)
  }

  /** They are the longest part of the announced entries that decodes. */
  lemma {:induction false} WholeIsMaximal(n: nat, d: Bytes, k: nat)
    requires k <= n
    ensures DecodeAll(k, d).Ok? <==> k <= |Whole(n, d)|
    ensures DecodeAll(k, d).Ok? ==> DecodeAll(k, d).value.0 == Whole(n, d)[..k]
    decreases n
  {
    hide DecodeData;
    if k > 0 && DecodeData(d).Ok? {
      WholeIsMaximal(n - 1, DecodeData(d).value.1, k - 1);
    }
  }

  /** A list is read exactly when all announced entries are whole; one entry takes at least four bytes. */
  lemma WholeEntriesDecide(d: Bytes)
    ensures 4 * |WholeEntries(d)| <= |d|
    ensures DecodeField(StringsT, d).Ok? <==> DecodeU32(d).Ok? && |WholeEntries(d)| == DecodeU32(d).value.0
    ensures DecodeField(StringsT, d).Ok? ==> DecodeField(StringsT, d).value.0 == Strings(WholeEntries(d))
  {
    hide U32Of, DecodeAll, Whole;
    if DecodeU32(d).Ok? {
      var (n, r) := DecodeU32(d).value;
      WholeIsMaximal(n, r, n);
      WholeIsMaximal(n, r, |Whole(n, r)|);
      AllExtends(|Whole(n, r)|, r, []);
    }
  }

  // ----- Appending, for the step-by-step writer -----

  lemma {:induction false} EncodeAppend(fs: seq<Field>, gs: seq<Field>)
    ensures EncodeFields(fs + gs) == EncodeFields(fs) + EncodeFields(gs)
  {
    if fs == [] {
      assert fs + gs == gs;
    } else {
      assert (fs + gs)[1..] == fs[1..] + gs;
      EncodeAppend(fs[1..], gs);
    }
  }

  lemma EncodeSnoc(fs: seq<Field>, f: Field)
    ensures EncodeFields(fs + [f]) == EncodeFields(fs) + EncodeField(f)
  {
    EncodeAppend(fs, [f]);
    assert EncodeFields([f]) == EncodeField(f) + EncodeFields([][..]);
  }
}
