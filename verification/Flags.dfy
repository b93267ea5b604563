/**
 Flag words and their normal forms.

 Both sides of the wire translate flag words bit by bit, so what arrives is a
 normal form of what was sent.  Open flags are bit vectors, because their masks
 overlap; the octal constants of the headers are written in hexadecimal.
 */
module Flags {
  import opened Bytes

  type Word = bv32

  // ----- Lists of masks -----

  function Or(a: Word, b: Word): Word { a | b }

  function And(a: Word, b: Word): Word { a & b }

  /** `small` has no bit that `big` lacks. */
  predicate Within(small: Word, big: Word) {
    And(small, big) == small
  }

  lemma WithinOr(a: Word, b: Word, bound: Word)
    requires Within(a, bound) && Within(b, bound)
    ensures Within(Or(a, b), bound)
  {
    AndOr(bound, a, b);
    AndSwap(Or(a, b), bound);
    AndSwap(a, bound);
    AndSwap(b, bound);
  }

  lemma WithinUnion(a: Word, b: Word)
    ensures Within(a, Or(a, b)) && Within(b, Or(a, b))
  {
  }

  lemma WithinTrans(a: Word, b: Word, c: Word)
    requires Within(a, b) && Within(b, c)
    ensures Within(a, c)
  {
  }

  lemma NothingWithin(bound: Word)
    ensures Within(0, bound)
  {
  }

  lemma WithinSelf(a: Word)
    ensures Within(a, a)
  {
  }

  lemma WithinBoth(a: Word, b: Word)
    requires Within(a, b) && Within(b, a)
    ensures a == b
  {
  }

  lemma AndSwap(a: Word, b: Word)
    ensures And(a, b) == And(b, a)
  {
  }

  lemma AndOr(v: Word, a: Word, b: Word)
    ensures And(v, Or(a, b)) == Or(And(v, a), And(v, b))
  {
  }

  lemma OrZero(a: Word)
    ensures Or(a, 0) == a == Or(0, a)
  {
  }

  lemma OrAssoc(a: Word, b: Word, c: Word)
    ensures Or(Or(a, b), c) == Or(a, Or(b, c))
  {
  }

  lemma OrSwap(a: Word, b: Word)
    ensures Or(a, b) == Or(b, a)
  {
  }

  function Union(masks: seq<Word>): Word {
    if masks == [] then 0 else Or(masks[0], Union(masks[1..]))
  }

  function Filter<T>(keep: T -> bool, xs: seq<T>): seq<T> {
    if xs == [] then []
    else (if keep(xs[0]) then [xs[0]] else []) + Filter(keep, xs[1..])
  }

  lemma {:induction false} FilterAppend<T>(keep: T -> bool, a: seq<T>, b: seq<T>)
    ensures Filter(keep, a + b) == Filter(keep, a) + Filter(keep, b)
  {
    if a == [] {
      assert a + b == b;
    } else {
      assert (a + b)[1..] == a[1..] + b;
      FilterAppend(keep, a[1..], b);
      var first := if keep(a[0]) then [a[0]] else [];
      assert first + (Filter(keep, a[1..]) + Filter(keep, b)) == first + Filter(keep, a[1..]) + Filter(keep, b);
    }
  }

  lemma {:induction false} FilterMembers<T>(keep: T -> bool, xs: seq<T>, x: T)
    ensures x in Filter(keep, xs) <==> x in xs && keep(x)
  {
    if xs != [] {
      FilterMembers(keep, xs[1..], x);
    }
  }

  function InsideOf(value: Word): Word -> bool {
    (m: Word) => Within(m, value)
  }

  /** The masks of the list that are wholly set in `value`, in list order. */
  function Listed(masks: seq<Word>, value: Word): seq<Word> {
    Filter(InsideOf(value), masks)
  }

  function Interior(masks: seq<Word>, value: Word): Word {
    Union(Listed(masks, value))
  }

  lemma {:induction false} UnionAppend(a: seq<Word>, b: seq<Word>)
    ensures Union(a + b) == Or(Union(a), Union(b))
  {
    hide Or;
    if a == [] {
      assert a + b == b;
      OrZero(Union(b));
    } else {
      assert (a + b)[1..] == a[1..] + b;
      UnionAppend(a[1..], b);
      OrAssoc(a[0], Union(a[1..]), Union(b));
    }
  }

  lemma InteriorSnoc(masks: seq<Word>, m: Word, value: Word)
    ensures Interior(masks + [m], value) == Or(Interior(masks, value), if Within(m, value) then m else 0)
  {
    hide Or, Within;
    OrZero(m);
    FilterAppend(InsideOf(value), masks, [m]);
    UnionAppend(Listed(masks, value), Listed([m], value));
    assert Listed([m], value) == if Within(m, value) then [m] else [];
  }

  lemma InteriorOfNone(value: Word)
    ensures Interior([], value) == 0
  {
  }

  lemma UnionParts(masks: seq<Word>)
    requires masks != []
    ensures Within(masks[0], Union(masks)) && Within(Union(masks[1..]), Union(masks))
  {
    WithinUnion(masks[0], Union(masks[1..]));
  }

  lemma {:induction false} UnionUpper(masks: seq<Word>, m: Word)
    requires m in masks
    ensures Within(m, Union(masks))
  {
    hide Within, Union;
    UnionParts(masks);
    if m in masks[1..] {
      UnionUpper(masks[1..], m);
      WithinTrans(m, Union(masks[1..]), Union(masks));
    }
  }

  lemma {:induction false} UnionLeast(masks: seq<Word>, bound: Word)
    requires forall m | m in masks :: Within(m, bound)
    ensures Within(Union(masks), bound)
  {
    hide Within;
    if masks != [] {
      assert masks[0] in masks;
      UnionLeast(masks[1..], bound);
      WithinOr(masks[0], Union(masks[1..]), bound);
    } else {
      NothingWithin(bound);
    }
  }

  lemma ListedMembers(masks: seq<Word>, value: Word, m: Word)
    ensures m in Listed(masks, value) <==> m in masks && Within(m, value)
  {
    FilterMembers(InsideOf(value), masks, m);
  }

  /** Contractive. */
  lemma InteriorWithin(masks: seq<Word>, value: Word)
    ensures Within(Interior(masks, value), value)
  {
    forall m | m in Listed(masks, value) ensures Within(m, value) { ListedMembers(masks, value, m); }
    UnionLeast(Listed(masks, value), value);
  }

  /** It is the greatest union of listed masks inside `value`. */
  lemma InteriorGreatest(masks: seq<Word>, chosen: seq<Word>, value: Word)
    requires forall m | m in chosen :: m in masks
    requires Within(Union(chosen), value)
    ensures Within(Union(chosen), Interior(masks, value))
  {
    forall m | m in chosen ensures Within(m, Interior(masks, value)) {
      UnionUpper(chosen, m);
      ListedMembers(masks, value, m);
      UnionUpper(Listed(masks, value), m);
    }
    UnionLeast(chosen, Interior(masks, value));
  }

  /** Every value of the operator is a union of listed masks. */
  lemma ListedAreMasks(masks: seq<Word>, value: Word)
    ensures forall m | m in Listed(masks, value) :: m in masks
  {
    forall m | m in Listed(masks, value) ensures m in masks { ListedMembers(masks, value, m); }
  }

  /** `chosen` are listed masks whose union is `value`. */
  predicate Makes(masks: seq<Word>, chosen: seq<Word>, value: Word) {
    (forall m | m in chosen :: m in masks) && Union(chosen) == value
  }

  /** The identity exactly on unions of listed masks. */
  lemma InteriorFixed(masks: seq<Word>, value: Word)
    ensures Interior(masks, value) == value <==> exists chosen :: Makes(masks, chosen, value)
  {
    WithinSelf(value);
    hide Within, Union, Listed;
    ListedAreMasks(masks, value);
    if Interior(masks, value) == value { assert Makes(masks, Listed(masks, value), value); }
    if chosen :| Makes(masks, chosen, value) {
      InteriorGreatest(masks, chosen, value);
      InteriorWithin(masks, value);
      WithinBoth(value, Interior(masks, value));
    }
  }

  lemma InteriorMonotone(masks: seq<Word>, a: Word, b: Word)
    requires Within(a, b)
    ensures Within(Interior(masks, a), Interior(masks, b))
  {
    InteriorWithin(masks, a);
    ListedAreMasks(masks, a);
    InteriorGreatest(masks, Listed(masks, a), b);
  }

  lemma InteriorIdempotent(masks: seq<Word>, value: Word)
    ensures Interior(masks, Interior(masks, value)) == Interior(masks, value)
  {
    hide Within, Union, Listed;
    var chosen, kept := Listed(masks, value), Interior(masks, value);
    ListedAreMasks(masks, value);
    assert Makes(masks, chosen, kept);
    InteriorFixed(masks, kept);
  }

  // ----- Open flags -----

  const RDONLY: Word := 0x0
  const WRONLY: Word := 0x1
  const RDWR: Word := 0x2
  const APPEND: Word := 0x400
  const ASYNC: Word := 0x2000
  const CLOEXEC: Word := 0x80000
  const CREAT: Word := 0x40
  const DIRECT: Word := 0x4000
  const DIRECTORY: Word := 0x10000
  const DSYNC: Word := 0x1000
  const EXCL: Word := 0x80
  const NOATIME: Word := 0x40000
  const NOCTTY: Word := 0x100
  const NOFOLLOW: Word := 0x20000
  const NONBLOCK: Word := 0x800
  const NDELAY: Word := 0x800
  const PATH: Word := 0x200000
  const SYNC: Word := 0x101000
  const TMPFILE: Word := 0x410000
  const TRUNC: Word := 0x200

  /** The masks with the same value in the local headers and on the wire, in the order of the tests. */
  const SHARED: seq<Word> := [
    RDONLY, WRONLY, RDWR, APPEND, ASYNC, CLOEXEC, CREAT, DIRECT, DIRECTORY, DSYNC, EXCL,
    NOATIME, NOCTTY, NOFOLLOW, NONBLOCK, NDELAY, PATH, SYNC, TMPFILE, TRUNC]

  /** `openflags::largefile`. */
  const WIRE_LARGEFILE: Word := 0x8000

  /** The local O_LARGEFILE: a 64-bit Linux header may define it as 0, and glibc on x86-64 does. */
  predicate LocalLargefile(large: Word) {
    large == 0 || large == WIRE_LARGEFILE
  }

  const LARGEFILE: Word := 0

  function LocalMasks(large: Word): seq<Word> {
    SHARED + [large]
  }

  /** The open flags that can cross the wire: the union of the local masks contained in the word. */
  function LocalForm(large: Word, value: Word): Word {
    Interior(LocalMasks(large), value)
  }

  function OpenForm(value: Word): Word {
    LocalForm(LARGEFILE, value)
  }

  /** What `from_int` sends: a local O_LARGEFILE of 0 is contained in every word. */
  function SentForm(large: Word, value: Word): Word {
    Or(Interior(SHARED, value), if Within(large, value) then WIRE_LARGEFILE else 0)
  }

  /** The number that is written for it. */
  function SentWord(value: Word): u32 {
    SentForm(LARGEFILE, value) as int
  }

  /** What `to_int` makes of it. */
  function ReceivedForm(large: Word, value: Word): Word {
    Or(Interior(SHARED, value), if Within(WIRE_LARGEFILE, value) then large else 0)
  }

  lemma OrThird(i: Word, extra: Word, m: Word)
    ensures Or(Or(i, extra), m) == Or(Or(i, m), extra)
  {
    OrAssoc(i, extra, m);
    OrSwap(extra, m);
    OrAssoc(i, m, extra);
  }

  /** One test of the conversions: `result |= mask` when the whole mask is set. */
  method AddMask(ghost done: seq<Word>, ghost extra: Word, value: Word, mask: Word, result: Word)
    returns (r: Word, ghost done': seq<Word>)
    requires result == Or(Interior(done, value), extra)
    ensures done' == done + [mask] && r == Or(Interior(done', value), extra)
  {
    InteriorSnoc(done, mask, value);
    OrThird(Interior(done, value), extra, mask);
    OrZero(Interior(done, value));
    AndSwap(value, mask);
    r, done' := result, done + [mask];
    hide Or, And;
    if mask == And(value, mask) { r := Or(r, mask); }
  }

  /** The conversions test for one flag `from` and set `to`; all others have the same mask on both sides. */
  method Convert(value: Word, from: Word, to: Word) returns (result: Word)
    ensures result == Or(Interior(SHARED, value), if Within(from, value) then to else 0)
  {
    ghost var done: seq<Word>, extra: Word := [], 0;
    result := 0;
    InteriorOfNone(value);
    OrZero(0);
    OrZero(to);
    AndSwap(value, from);
    hide Interior, Or, And;
    result, done := AddMask(done, extra, value, RDONLY, result);
    result, done := AddMask(done, extra, value, WRONLY, result);
    result, done := AddMask(done, extra, value, RDWR, result);
    result, done := AddMask(done, extra, value, APPEND, result);
    result, done := AddMask(done, extra, value, ASYNC, result);
    result, done := AddMask(done, extra, value, CLOEXEC, result);
    result, done := AddMask(done, extra, value, CREAT, result);
    result, done := AddMask(done, extra, value, DIRECT, result);
    result, done := AddMask(done, extra, value, DIRECTORY, result);
    result, done := AddMask(done, extra, value, DSYNC, result);
    result, done := AddMask(done, extra, value, EXCL, result);
    if from == And(value, from) {
      OrZero(Interior(done, value));
      result := Or(result, to);
      extra := to;
    }
    result, done := AddMask(done, extra, value, NOATIME, result);
    result, done := AddMask(done, extra, value, NOCTTY, result);
    result, done := AddMask(done, extra, value, NOFOLLOW, result);
    result, done := AddMask(done, extra, value, NONBLOCK, result);
    result, done := AddMask(done, extra, value, NDELAY, result);
    result, done := AddMask(done, extra, value, PATH, result);
    result, done := AddMask(done, extra, value, SYNC, result);
    result, done := AddMask(done, extra, value, TMPFILE, result);
    result, done := AddMask(done, extra, value, TRUNC, result);
    assert done == SHARED;
  }

  /** `openflags::from_int`. */
  method FromInt(large: Word, value: Word) returns (result: Word)
    ensures result == SentForm(large, value)
  {
    result := Convert(value, large, WIRE_LARGEFILE);
  }

  /** `openflags::to_int`. */
  method ToInt(large: Word, value: Word) returns (result: Word)
    ensures result == ReceivedForm(large, value)
  {
    result := Convert(value, WIRE_LARGEFILE, large);
  }

  lemma SharedAvoidLargefile()
    ensures forall m | m in SHARED :: And(m, WIRE_LARGEFILE) == 0
  {
  }

  lemma {:induction false} UnionAvoids(masks: seq<Word>, bit: Word)
    requires forall m | m in masks :: And(m, bit) == 0
    ensures And(Union(masks), bit) == 0
  {
    if masks == [] {
      assert And(0, bit) == 0;
    } else {
      hide And, Or;
      assert masks[0] in masks;
      UnionAvoids(masks[1..], bit);
      AndSwap(bit, Union(masks));
      AndOr(bit, masks[0], Union(masks[1..]));
      AndSwap(bit, masks[0]);
      AndSwap(bit, Union(masks[1..]));
      OrZero(0);
    }
  }

  lemma WithinWithout(m: Word, value: Word, bit: Word)
    requires And(m, bit) == 0
    ensures Within(m, Or(value, bit)) <==> Within(m, value)
  {
    hide And, Or;
    AndOr(m, value, bit);
    OrZero(And(m, value));
  }

  lemma {:induction false} FilterSame<T>(p: T -> bool, q: T -> bool, xs: seq<T>)
    requires forall x | x in xs :: p(x) == q(x)
    ensures Filter(p, xs) == Filter(q, xs)
  {
    if xs != [] {
      assert xs[0] in xs;
      FilterSame(p, q, xs[1..]);
    }
  }

  /** The wire's O_LARGEFILE bit does not disturb the other tests. */
  lemma SharedIgnoreLargefile(value: Word)
    ensures Interior(SHARED, Or(value, WIRE_LARGEFILE)) == Interior(SHARED, value)
    ensures And(Interior(SHARED, value), WIRE_LARGEFILE) == 0
  {
    SharedAvoidLargefile();
    hide Within, Union, And, Or, SHARED;
    forall m | m in SHARED ensures Within(m, Or(value, WIRE_LARGEFILE)) == Within(m, value) {
      WithinWithout(m, value, WIRE_LARGEFILE);
    }
    FilterSame(InsideOf(Or(value, WIRE_LARGEFILE)), InsideOf(value), SHARED);
    ListedAreMasks(SHARED, value);
    UnionAvoids(Listed(SHARED, value), WIRE_LARGEFILE);
  }

  lemma LargefileBit(i: Word)
    requires And(i, WIRE_LARGEFILE) == 0
    ensures Within(WIRE_LARGEFILE, Or(i, WIRE_LARGEFILE)) && !Within(WIRE_LARGEFILE, i)
  {
  }

  /**
   Sending and receiving open flags leaves the union of the local masks they contain, whatever the headers
   say about O_LARGEFILE.
   */
  lemma OpenFlagsTrip(large: Word, value: Word)
    requires LocalLargefile(large)
    ensures ReceivedForm(large, SentForm(large, value)) == LocalForm(large, value)
  {
    hide Interior, Within, And, Or, SHARED;
    var i := Interior(SHARED, value);
    InteriorSnoc(SHARED, large, value);
    InteriorIdempotent(SHARED, value);
    SharedIgnoreLargefile(value);
    SharedIgnoreLargefile(i);
    LargefileBit(i);
    NothingWithin(value);
    OrZero(i);
  }

  /** What is on the wire: the same flags, and O_LARGEFILE for every word when the local mask is 0. */
  lemma SentFlags(large: Word, value: Word)
    requires LocalLargefile(large)
    ensures SentForm(large, value)
            == if large == 0 then Or(LocalForm(large, value), WIRE_LARGEFILE) else LocalForm(large, value)
  {
    hide Interior, Within, Or, SHARED;
    InteriorSnoc(SHARED, large, value);
    NothingWithin(value);
    OrZero(Interior(SHARED, value));
  }

  /** The trip is contractive and idempotent, and keeps every listed flag. */
  lemma OpenFlagsRoundTrip(large: Word, value: Word)
    ensures var form := LocalForm(large, value);
            && LocalForm(large, form) == form && Within(form, value)
            && forall m | m in LocalMasks(large) && Within(m, value) :: Within(m, form)
  {
    hide Within, LocalMasks;
    var masks := LocalMasks(large);
    InteriorIdempotent(masks, value);
    InteriorWithin(masks, value);
    forall m | m in masks && Within(m, value) ensures Within(m, LocalForm(large, value)) {
      ListedMembers(masks, value, m);
      UnionUpper(Listed(masks, value), m);
    }
  }

  const SHARED_BITS: Word := 0x7F7FC3

  /** Bit `high` is set only together with bit `low`. */
  predicate Together(v: Word, high: Word, low: Word) {
    And(v, high) == 0 || And(v, low) != 0
  }

  /**
   Only bits of the local flags; the upper bit of O_SYNC comes with O_DSYNC and that of
   O_TMPFILE with O_DIRECTORY.
   */
  predicate KnownFlags(large: Word, v: Word) {
    Within(v, Or(SHARED_BITS, large)) && Together(v, 0x100000, 0x1000) && Together(v, 0x400000, 0x10000)
  }

  lemma OrNonzero(v: Word, w: Word)
    ensures Or(v, w) == 0 <==> v == 0 && w == 0
  {
  }

  lemma TogetherOr(a: Word, b: Word, high: Word, low: Word)
    requires Together(a, high, low) && Together(b, high, low)
    ensures Together(Or(a, b), high, low)
  {
    hide And, Or;
    AndSwap(high, Or(a, b));
    AndSwap(high, a);
    AndSwap(high, b);
    AndSwap(low, Or(a, b));
    AndSwap(low, a);
    AndSwap(low, b);
    AndOr(high, a, b);
    AndOr(low, a, b);
    OrNonzero(And(high, a), And(high, b));
    OrNonzero(And(low, a), And(low, b));
  }

  lemma KnownOr(large: Word, a: Word, b: Word)
    requires KnownFlags(large, a) && KnownFlags(large, b)
    ensures KnownFlags(large, Or(a, b))
  {
    hide Within, Together, Or, And;
    WithinOr(a, b, Or(SHARED_BITS, large));
    TogetherOr(a, b, 0x100000, 0x1000);
    TogetherOr(a, b, 0x400000, 0x10000);
  }

  lemma {:induction false} KnownUnion(large: Word, masks: seq<Word>)
    requires forall m | m in masks :: KnownFlags(large, m)
    ensures KnownFlags(large, Union(masks))
  {
    hide KnownFlags, Or;
    if masks != [] {
      assert masks[0] in masks;
      KnownUnion(large, masks[1..]);
      KnownOr(large, masks[0], Union(masks[1..]));
    } else {
      NothingKnown(large);
    }
  }

  lemma NothingKnown(large: Word)
    ensures KnownFlags(large, 0)
  {
  }

  /** Every bit of the shared flags with the mask that brings it. */
  const TABLE: seq<(Word, Word)> := [
    (0x1, WRONLY), (0x2, RDWR), (0x40, CREAT), (0x80, EXCL), (0x100, NOCTTY), (0x200, TRUNC), (0x400, APPEND),
    (0x800, NONBLOCK), (0x1000, DSYNC), (0x2000, ASYNC), (0x4000, DIRECT), (0x10000, DIRECTORY), (0x20000, NOFOLLOW),
    (0x40000, NOATIME), (0x80000, CLOEXEC), (0x100000, SYNC), (0x200000, PATH), (0x400000, TMPFILE)]

  /** The first `n` bits of the table. */
  function BitsTo(n: nat): Word
    requires n <= |TABLE|
  {
    if n == 0 then 0 else Or(BitsTo(n - 1), TABLE[n - 1].0)
  }

  lemma TableIsComplete()
    ensures |TABLE| == 18 && BitsTo(18) == SHARED_BITS
  {
    assert BitsTo(1) == 0x1 && BitsTo(2) == 0x3 && BitsTo(3) == 0x43 && BitsTo(4) == 0xC3;
    assert BitsTo(5) == 0x1C3 && BitsTo(6) == 0x3C3 && BitsTo(7) == 0x7C3 && BitsTo(8) == 0xFC3;
    assert BitsTo(9) == 0x1FC3 && BitsTo(10) == 0x3FC3 && BitsTo(11) == 0x7FC3 && BitsTo(12) == 0x17FC3;
    assert BitsTo(13) == 0x37FC3 && BitsTo(14) == 0x77FC3 && BitsTo(15) == 0xF7FC3 && BitsTo(16) == 0x1F7FC3;
    assert BitsTo(17) == 0x3F7FC3;
  }

  predicate IsBit(b: Word) {
    b != 0 && And(b, b - 1) == 0
  }

  /** Each entry is a single bit and a mask that is that bit alone, but for O_SYNC and O_TMPFILE. */
  lemma TableShape()
    ensures forall p | p in TABLE ::
              IsBit(p.0) && (p.1 == p.0 || p == (0x100000, SYNC) || p == (0x400000, TMPFILE))
  {
  }

  lemma SharedAt()
    ensures WRONLY in SHARED && RDWR in SHARED && APPEND in SHARED && ASYNC in SHARED && CLOEXEC in SHARED
    ensures CREAT in SHARED && DIRECT in SHARED && DIRECTORY in SHARED && DSYNC in SHARED && EXCL in SHARED
    ensures NOATIME in SHARED && NOCTTY in SHARED && NOFOLLOW in SHARED && NONBLOCK in SHARED && PATH in SHARED
    ensures SYNC in SHARED && TMPFILE in SHARED && TRUNC in SHARED
  {
    assert SHARED[1] == WRONLY && SHARED[2] == RDWR && SHARED[3] == APPEND && SHARED[4] == ASYNC;
    assert SHARED[5] == CLOEXEC && SHARED[6] == CREAT && SHARED[7] == DIRECT && SHARED[8] == DIRECTORY;
    assert SHARED[9] == DSYNC && SHARED[10] == EXCL && SHARED[11] == NOATIME && SHARED[12] == NOCTTY;
    assert SHARED[13] == NOFOLLOW && SHARED[14] == NONBLOCK && SHARED[16] == PATH && SHARED[17] == SYNC;
    assert SHARED[18] == TMPFILE && SHARED[19] == TRUNC;
  }

  lemma TableMasks()
    ensures forall p | p in TABLE :: p.1 in SHARED
  {
    hide SHARED;
    SharedAt();
  }

  lemma SingleBit(v: Word, bit: Word)
    requires IsBit(bit)
    ensures And(v, bit) == 0 || Within(bit, v)
  {
  }

  lemma TwoBits(v: Word, high: Word, low: Word)
    requires IsBit(high) && IsBit(low) && Together(v, high, low)
    ensures And(v, high) == 0 || Within(Or(high, low), v)
  {
    hide And, Or, IsBit;
    SingleBit(v, high);
    SingleBit(v, low);
    if And(v, high) != 0 { WithinOr(high, low, v); }
  }

  lemma PairCovers(v: Word, bit: Word, mask: Word)
    requires IsBit(bit) && (mask == bit || (bit == 0x100000 && mask == SYNC) || (bit == 0x400000 && mask == TMPFILE))
    requires Together(v, 0x100000, 0x1000) && Together(v, 0x400000, 0x10000)
    ensures Within(bit, mask) && (And(v, bit) == 0 || Within(mask, v))
  {
    if mask == bit {
      hide And, IsBit, Together;
      SingleBit(v, bit);
      WithinSelf(bit);
    } else {
      var low: Word := if bit == 0x100000 then 0x1000 else 0x10000;
      assert IsBit(low) && mask == Or(bit, low);
      hide And, Or, IsBit, Together;
      TwoBits(v, bit, low);
      WithinUnion(bit, low);
    }
  }

  /** A known word contains each of its bits together with that bit's mask. */
  lemma TableCovers(large: Word, v: Word)
    requires KnownFlags(large, v)
    ensures forall p | p in TABLE :: Within(p.0, p.1) && p.1 in SHARED && (And(v, p.0) == 0 || Within(p.1, v))
  {
    hide And, Or, IsBit, Within, Together, TABLE, SHARED;
    TableShape();
    TableMasks();
    forall p | p in TABLE ensures Within(p.0, p.1) && (And(v, p.0) == 0 || Within(p.1, v)) {
      PairCovers(v, p.0, p.1);
    }
  }

  lemma WithinAnd(v: Word, bit: Word)
    ensures Within(And(v, bit), bit)
  {
  }

  lemma BitKept(v: Word, bit: Word, mask: Word, kept: Word)
    requires Within(bit, mask) && (And(v, bit) == 0 || Within(mask, kept))
    ensures Within(And(v, bit), kept)
  {
    hide Within, And;
    if And(v, bit) == 0 {
      NothingWithin(kept);
    } else {
      WithinAnd(v, bit);
      WithinTrans(And(v, bit), bit, mask);
      WithinTrans(And(v, bit), mask, kept);
    }
  }

  lemma {:induction false} BitsKept(v: Word, kept: Word, n: nat)
    requires n <= |TABLE|
    requires forall p | p in TABLE :: Within(p.0, p.1) && (And(v, p.0) == 0 || Within(p.1, kept))
    ensures Within(And(v, BitsTo(n)), kept)
  {
    hide Within, And, Or, TABLE;
    if n == 0 {
      NothingKept(v, kept);
    } else {
      var p := TABLE[n - 1];
      assert p in TABLE;
      BitsKept(v, kept, n - 1);
      BitKept(v, p.0, p.1, kept);
      WithinOr(And(v, BitsTo(n - 1)), And(v, p.0), kept);
      AndOr(v, BitsTo(n - 1), p.0);
    }
  }

  lemma NothingKept(v: Word, kept: Word)
    ensures Within(And(v, 0), kept)
  {
  }

  lemma KnownIsFixed(large: Word, v: Word)
    requires LocalLargefile(large) && KnownFlags(large, v)
    ensures LocalForm(large, v) == v
  {
    var form := LocalForm(large, v);
    TableIsComplete();
    hide Within, LocalForm, And, Or, Together, TABLE, SHARED, BitsTo;
    OpenFlagsRoundTrip(large, v);
    TableCovers(large, v);
    forall p | p in TABLE ensures Within(p.0, p.1) && (And(v, p.0) == 0 || Within(p.1, form)) {
      assert p.1 in LocalMasks(large);
    }
    BitsKept(v, form, 18);
    assert large in LocalMasks(large);
    LargeKept(large, v, form);
    AndOr(v, SHARED_BITS, large);
    WithinOr(And(v, SHARED_BITS), And(v, large), form);
    assert Within(v, form) by { WithinMeans(v, Or(SHARED_BITS, large)); }
    WithinBoth(form, v);
  }

  lemma WithinMeans(v: Word, bound: Word)
    ensures Within(v, bound) <==> And(v, bound) == v
  {
  }

  lemma LargeKept(large: Word, v: Word, form: Word)
    requires LocalLargefile(large) && (Within(large, v) ==> Within(large, form))
    ensures Within(And(v, large), form)
  {
    if large == 0 {
      NothingKept(v, form);
    } else {
      assert IsBit(WIRE_LARGEFILE) && Within(large, large);
      hide Within, And, IsBit;
      SingleBit(v, large);
      BitKept(v, large, large, form);
    }
  }

  /** Open flags survive the wire exactly when they are known. */
  lemma KnownIffFixed(large: Word, v: Word)
    requires LocalLargefile(large)
    ensures LocalForm(large, v) == v <==> KnownFlags(large, v)
  {
    hide KnownFlags, SHARED;
    if LocalForm(large, v) == v {
      ListedAreMasks(LocalMasks(large), v);
      MasksKnown(large);
      KnownUnion(large, Listed(LocalMasks(large), v));
    }
    if KnownFlags(large, v) { KnownIsFixed(large, v); }
  }

  lemma OpenIffKnown(v: Word)
    ensures OpenForm(v) == v <==> KnownFlags(LARGEFILE, v)
  {
    KnownIffFixed(LARGEFILE, v);
  }

  lemma SharedKnown()
    ensures forall m | m in SHARED :: KnownFlags(0, m)
  {
  }

  lemma MasksKnown(large: Word)
    requires LocalLargefile(large)
    ensures forall m | m in LocalMasks(large) :: KnownFlags(large, m)
  {
    SharedKnown();
    assert KnownFlags(large, large);
    OrZero(SHARED_BITS);
    WithinUnion(SHARED_BITS, large);
    hide Within, And, Or, SHARED, Together;
    forall m | m in SHARED ensures KnownFlags(large, m) {
      WithinTrans(m, SHARED_BITS, Or(SHARED_BITS, large));
    }
  }

  // ----- File modes -----
  //
  // The remaining words use masks that do not overlap, so `value & mask` is a remainder
  // or a digit and `|=` adds a bit group that is still zero.

  /** The four-bit type field: fifo 1, chr 2, dir 4, blk 6, reg 8, lnk 10, sock 12. */
  function TypeField(mode: u32): (t: u32)
    ensures t < 16
  {
    mode / 0x1000 % 16
  }

  predicate IsFileType(t: int) {
    t == 8 || t == 4 || t == 2 || t == 6 || t == 1 || t == 10 || t == 12
  }

  /** Type and permissions together when the type is one of the seven, else the permissions alone. */
  function ModeForm(mode: u32): (r: u32)
    ensures r < 0x1_0000
  {
    if IsFileType(TypeField(mode)) then mode % 0x1_0000 else mode % 0x1000
  }

  /** `filemode::from_mode` and `filemode::to_mode`: the same tests, as both name the same bits. */
  method ConvertMode(mode: u32) returns (result: u32)
    ensures result == ModeForm(mode)
  {
    var t := TypeField(mode);
    result := mode % 0x1000;
    if t == 8 { result := result + 0x8000; }
    if t == 4 { result := result + 0x4000; }
    if t == 2 { result := result + 0x2000; }
    if t == 6 { result := result + 0x6000; }
    if t == 1 { result := result + 0x1000; }
    if t == 10 { result := result + 0xA000; }
    if t == 12 { result := result + 0xC000; }
    assert mode % 0x1_0000 == mode % 0x1000 + t * 0x1000;
  }

  /** Converting any number of times is converting once; the permissions always survive. */
  lemma ModeIdempotent(mode: u32)
    ensures ModeForm(ModeForm(mode)) == ModeForm(mode)
    ensures ModeForm(mode) % 0x1000 == mode % 0x1000
  {
    assert mode % 0x1_0000 / 0x1000 % 16 == TypeField(mode);
    assert mode % 0x1_0000 % 0x1000 == mode % 0x1000;
  }

  /** A mode survives exactly when its bits above the permissions are zero or name one of the seven types. */
  lemma ModeFixed(mode: u32)
    ensures ModeForm(mode) == mode <==> mode < 0x1000 || (mode < 0x1_0000 && IsFileType(TypeField(mode)))
  {
  }

  /** Fifo, character device, directory, block device, regular file, link and socket keep their type; no other does. */
  lemma KnownTypes(foreign: nat, t: nat, permissions: nat)
    requires foreign < 0x1_0000 && t < 16 && permissions < 0x1000
    ensures ModeForm(foreign * 0x1_0000 + t * 0x1000 + permissions)
            == if t in {1, 2, 4, 6, 8, 10, 12} then t * 0x1000 + permissions else permissions
  {
    var low := t * 0x1000 + permissions;
    var mode: u32 := foreign * 0x1_0000 + low;
    assert mode / 0x1000 == foreign * 16 + t;
    assert mode % 0x1_0000 == low && mode % 0x1000 == permissions;
  }

  // ----- Access modes and rename flags -----

  lemma LowDigits(h: nat, b1: nat, b0: nat)
    requires b1 < 2 && b0 < 2
    ensures var v := 4 * h + 2 * b1 + b0; v % 4 == 2 * b1 + b0 && v / 2 == 2 * h + b1 && v / 4 == h
  {
  }

  lemma BinaryDigits(v: nat)
    ensures v % 4 == v / 2 % 2 * 2 + v % 2
    ensures v % 8 == v / 4 % 2 * 4 + v % 4
  {
    LowDigits(v / 2 / 2, v / 2 % 2, v % 2);
    var h := v / 4;
    assert v == 8 * (h / 2) + (h % 2 * 4 + v % 4);
  }

  /** The three permission bits R_OK, W_OK and X_OK. */
  function AccessForm(value: u32): (r: u8)
    ensures r < 8
  {
    value % 8
  }

  /** `access_mode::from_int` and `access_mode::to_int`. */
  method ConvertAccessMode(value: u32) returns (result: u8)
    ensures result == AccessForm(value)
  {
    BinaryDigits(value);
    result := 0;
    if value / 4 % 2 != 0 { result := result + 4; }
    if value / 2 % 2 != 0 { result := result + 2; }
    if value % 2 != 0 { result := result + 1; }
  }

  /** The two rename bits the protocol knows: RENAME_NOREPLACE and RENAME_EXCHANGE. */
  function RenameForm(value: u32): (r: u8)
    ensures r < 4
  {
    value % 4
  }

  /** The translation in `write_rename_flags`. */
  method ConvertRenameFlags(value: u32) returns (result: u8)
    ensures result == RenameForm(value)
  {
    BinaryDigits(value);
    result := 0;
    if value % 2 == 1 { result := result + 1; }
    if value / 2 % 2 == 1 { result := result + 2; }
  }
}
