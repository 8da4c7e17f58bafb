/** The wire encoding of the C++ client: words, varints, strings, vectors, pairs and
    optionals, each written into a growing buffer and read back through a cursor. */
module Llio {
  import opened Sequences
  import opened Bytes

  /** What reading a value at a position of a message gives. */
  datatype Parsed<+T> =
    | Ok(value: T, pos: nat)  // the value, and the position after it
    | Thrown(pos: nat)        // a deserialisation_exception, and where the cursor stands
    | ThrownOther             // an exception of another type
    | Aborted                 // the process ends: a noexcept boundary or a failed assertion

  // `enc` stands in `bs` at `pos`, whatever comes before and after it
  predicate At(bs: seq<byte>, pos: nat, enc: seq<byte>) {
    pos + |enc| <= |bs| && bs[pos..pos + |enc|] == enc
  }

  lemma {:induction false} AtConcat(bs: seq<byte>, pos: nat, a: seq<byte>, b: seq<byte>)
    ensures At(bs, pos, a + b) <==> At(bs, pos, a) && At(bs, pos + |a|, b)
  {
    if pos + |a| + |b| <= |bs| {
      var whole := bs[pos..pos + |a + b|];
      assert whole == bs[pos..pos + |a|] + bs[pos + |a|..pos + |a| + |b|];
      assert (a + b)[..|a|] == a && (a + b)[|a|..] == b;
      assert whole[..|a|] == bs[pos..pos + |a|] && whole[|a|..] == bs[pos + |a|..pos + |a| + |b|];
    }
  }

  /** An encoder with its decoder. */
  datatype Codec<!T(!new)> = Codec(enc: T -> seq<byte>, dec: (seq<byte>, nat) -> Parsed<T>)

  /** Decoding the encoding of t, with anything around it, gives t and stops right after it. */
  ghost predicate RoundTrips<T(!new)>(c: Codec<T>, t: T) {
    forall bs: seq<byte>, pos: nat {:trigger At(bs, pos, c.enc(t))} :: At(bs, pos, c.enc(t))
      ==> c.dec(bs, pos) == Ok(t, pos + |c.enc(t)|)
  }

  // ------------------------------------------------------------------
  // Fixed-width words and booleans
  // ------------------------------------------------------------------

  function WordFrom(n: nat, bs: seq<byte>, pos: nat): Parsed<nat> {
    if pos + n > |bs| then Thrown(pos) else Ok(FromLittleEndian(bs[pos..pos + n]), pos + n)
  }

  function U8From(bs: seq<byte>, pos: nat): Parsed<byte> {
    if pos + 1 > |bs| then Thrown(pos) else Ok(bs[pos], pos + 1)
  }

  function BoolTo(b: bool): seq<byte> { if b then [1] else [0] }

  function BoolFrom(bs: seq<byte>, pos: nat): Parsed<bool> {
    if pos + 1 > |bs| then Thrown(pos)
    else if bs[pos] == 1 then Ok(true, pos + 1)
    else if bs[pos] == 0 then Ok(false, pos + 1)
    else Thrown(pos)
  }

  const U8: Codec<byte> := Codec((b: byte) => [b], U8From)
  const U32: Codec<nat> := Codec((v: nat) => LittleEndian(v, 4), (bs: seq<byte>, pos: nat) => WordFrom(4, bs, pos))
  const U64: Codec<nat> := Codec((v: nat) => LittleEndian(v, 8), (bs: seq<byte>, pos: nat) => WordFrom(8, bs, pos))
  const BOOL: Codec<bool> := Codec(BoolTo, BoolFrom)

  lemma {:induction false} WordRoundTrip(v: nat, n: nat, bs: seq<byte>, pos: nat)
    requires v < Pow256(n) && At(bs, pos, LittleEndian(v, n))
    ensures WordFrom(n, bs, pos) == Ok(v, pos + n)
  {
    LittleEndianRoundTrip(v, n);
  }

  lemma {:induction false} U32RoundTrips(v: nat)
    requires v < TWO32
    ensures RoundTrips(U32, v)
  {
    Widths();
    forall bs: seq<byte>, pos: nat | At(bs, pos, U32.enc(v))
      ensures U32.dec(bs, pos) == Ok(v, pos + |U32.enc(v)|)
    {
      WordRoundTrip(v, 4, bs, pos);
    }
  }

  lemma {:induction false} U64RoundTrips(v: nat)
    requires v < TWO64
    ensures RoundTrips(U64, v)
  {
    Widths();
    forall bs: seq<byte>, pos: nat | At(bs, pos, U64.enc(v))
      ensures U64.dec(bs, pos) == Ok(v, pos + |U64.enc(v)|)
    {
      WordRoundTrip(v, 8, bs, pos);
    }
  }

  lemma {:induction false} U8RoundTrips(b: byte)
    ensures RoundTrips(U8, b)
  {
    forall bs: seq<byte>, pos: nat | At(bs, pos, U8.enc(b))
      ensures U8.dec(bs, pos) == Ok(b, pos + |U8.enc(b)|)
    {
      assert bs[pos..pos + 1][0] == bs[pos];
    }
  }

  lemma {:induction false} BoolRoundTrips(b: bool)
    ensures RoundTrips(BOOL, b)
  {
    forall bs: seq<byte>, pos: nat | At(bs, pos, BOOL.enc(b))
      ensures BOOL.dec(bs, pos) == Ok(b, pos + |BOOL.enc(b)|)
    {
      assert bs[pos..pos + 1][0] == bs[pos];
    }
  }

  // ------------------------------------------------------------------
  // Big-endian words: swapped, then written as usual
  // ------------------------------------------------------------------

  function Be32To(v: nat): seq<byte> { LittleEndian(Swap32(v), 4) }

  function Be64To(v: nat): seq<byte> { LittleEndian(Swap64(v), 8) }

  function Be64From(bs: seq<byte>, pos: nat): Parsed<nat> {
    match WordFrom(8, bs, pos)
    case Ok(v, p) => Ok(Swap64(v), p)
    case other => other
  }

  const BE64: Codec<nat> := Codec(Be64To, Be64From)

  /** Big-endian words read back, and their bytes are the word's base-256 digits, highest first. */
  lemma {:induction false} Be64RoundTrips(v: nat)
    requires v < TWO64
    ensures RoundTrips(BE64, v) && Be64To(v) == BigEndian(v, 8)
  {
    Widths();
    Swap64IsBigEndian(v);
    BigEndianRoundTrip(v, 8);
    forall bs: seq<byte>, pos: nat | At(bs, pos, BE64.enc(v))
      ensures BE64.dec(bs, pos) == Ok(v, pos + |BE64.enc(v)|)
    {
      SwapLoaded64(bs[pos..pos + 8]);
    }
  }

  // ------------------------------------------------------------------
  // Strings
  // ------------------------------------------------------------------

  // `skip` takes an int: a length of 2^31 or more moves the 64-bit position backwards.
  function Skip(pos: nat, len: nat): nat
    requires len < TWO32
  {
    if len < TWO31 then pos + len else (pos + len - TWO32) % TWO64
  }

  function StringTo(s: seq<byte>): seq<byte> {
    var size := |s| % TWO32;
    LittleEndian(size, 4) + s[..size]
  }

  function StringFrom(bs: seq<byte>, pos: nat): Parsed<seq<byte>> {
    match WordFrom(4, bs, pos)
    case Thrown(p) => Thrown(p)
    case Ok(size, p) =>
      WordIsSmall(bs, pos);
      if p + size > |bs| then Thrown(p) else Ok(bs[p..p + size], Skip(p, size))
    case ThrownOther => ThrownOther
    case Aborted => Aborted
  }

  lemma {:induction false} WordIsSmall(bs: seq<byte>, pos: nat)
    ensures WordFrom(4, bs, pos).Ok? ==> WordFrom(4, bs, pos).value < TWO32
  {
    if pos + 4 <= |bs| {
      FromLittleEndianBound(bs[pos..pos + 4]);
      Widths();
    }
  }

  const STRING: Codec<seq<byte>> := Codec(StringTo, StringFrom)

  lemma {:induction false} StringSplits(s: seq<byte>, bs: seq<byte>, pos: nat)
    requires At(bs, pos, StringTo(s))
    ensures var size := |s| % TWO32;
      StringFrom(bs, pos) == Ok(s[..size], Skip(pos + 4, size))
  {
    SizePrefix(|s| % TWO32, s[..|s| % TWO32], bs, pos);
  }

  /** Strings read back exactly up to 2^31 - 1 bytes: longer ones lose bytes or the cursor. */
  lemma {:induction false} StringRoundTripsIffShort(s: seq<byte>)
    requires |s| < TWO64
    ensures RoundTrips(STRING, s) <==> |s| < TWO31
  {
    var enc := StringTo(s);
    var size := |s| % TWO32;
    if |s| < TWO31 {
      assert size == |s| && s[..size] == s;
      forall bs: seq<byte>, pos: nat | At(bs, pos, STRING.enc(s))
        ensures STRING.dec(bs, pos) == Ok(s, pos + |STRING.enc(s)|)
      {
        StringSplits(s, bs, pos);
      }
    } else {
      assert enc[0..|enc|] == enc;
      assert At(enc, 0, STRING.enc(s));
      StringSplits(s, enc, 0);
      assert STRING.dec(enc, 0) == Ok(s[..size], Skip(4, size));
    }
  }

  // ------------------------------------------------------------------
  // Varints: seven bits a byte, lowest first, the high bit set on all but the last
  // ------------------------------------------------------------------

  function VarintTo(j: nat): seq<byte> {
    if j >= 0x80 then [j % 0x80 + 0x80] + VarintTo(j / 0x80) else [j]
  }

  function Pow128(k: nat): nat {
    if k == 0 then 1 else 0x80 * Pow128(k - 1)
  }

  // the 64-bit sum of r and b shifted left seven times k
  function AddShifted(r: nat, b: nat, k: nat): nat {
    (r + b * Pow128(k)) % TWO64
  }

  // from the k-th byte on, with the 64-bit sum of the bytes before it
  function VarintRest(bs: seq<byte>, pos: nat, k: nat, r: nat): Parsed<nat>
    decreases |bs| - pos
  {
    if pos + 1 > |bs| then Thrown(pos)
    else if bs[pos] >= 0x80 then VarintRest(bs, pos + 1, k + 1, AddShifted(r, bs[pos] - 0x80, k))
    else Ok(AddShifted(r, bs[pos], k), pos + 1)
  }

  function VarintFrom(bs: seq<byte>, pos: nat): Parsed<nat> {
    VarintRest(bs, pos, 0, 0)
  }

  const VARINT: Codec<nat> := Codec(VarintTo, VarintFrom)

  lemma {:induction false} SplitProduct(j: nat, p: nat)
    ensures j * p == (j % 0x80) * p + (j / 0x80) * (0x80 * p)
  {
    var q, r := j / 0x80, j % 0x80;
    assert j == 0x80 * q + r;
    assert (0x80 * q + r) * p == r * p + q * (0x80 * p);
  }

  lemma {:induction false} SumWraps(r: nat, x: nat, y: nat)
    ensures ((r + x) % TWO64 + y) % TWO64 == (r + (x + y)) % TWO64
  {
  }

  lemma {:induction false} AddShiftedSplits(r: nat, j: nat, k: nat)
    ensures AddShifted(AddShifted(r, j % 0x80, k), j / 0x80, k + 1) == AddShifted(r, j, k)
  {
    SplitProduct(j, Pow128(k));
    SumWraps(r, (j % 0x80) * Pow128(k), (j / 0x80) * Pow128(k + 1));
  }

  lemma {:induction false} VarintRestRoundTrip(j: nat, bs: seq<byte>, pos: nat, k: nat, r: nat)
    requires At(bs, pos, VarintTo(j))
    ensures VarintRest(bs, pos, k, r) == Ok(AddShifted(r, j, k), pos + |VarintTo(j)|)
    decreases j
  {
    assert bs[pos] == bs[pos..pos + |VarintTo(j)|][0];
    if j >= 0x80 {
      AtConcat(bs, pos, [j % 0x80 + 0x80], VarintTo(j / 0x80));
      VarintRestRoundTrip(j / 0x80, bs, pos + 1, k + 1, AddShifted(r, j % 0x80, k));
      AddShiftedSplits(r, j, k);
    }
  }

  /** Every 64-bit number survives the varint encoding. */
  lemma {:induction false} VarintRoundTrips(j: nat)
    requires j < TWO64
    ensures RoundTrips(VARINT, j)
  {
    forall bs: seq<byte>, pos: nat | At(bs, pos, VARINT.enc(j))
      ensures VARINT.dec(bs, pos) == Ok(j, pos + |VARINT.enc(j)|)
    {
      VarintRestRoundTrip(j, bs, pos, 0, 0);
      assert AddShifted(0, j, 0) == j;
    }
  }

  // ------------------------------------------------------------------
  // Numbers in four bytes, or in twelve when they do not fit an int32
  // ------------------------------------------------------------------

  const MAX_INT32: nat := 2147483647

  // As the server writes them: the same form, lowest byte first.
  function X64To(i: nat): seq<byte> {
    if i < MAX_INT32 then LittleEndian(i, 4) else LittleEndian(MAX_INT32, 4) + LittleEndian(i, 8)
  }

  function X64From(bs: seq<byte>, pos: nat): Parsed<nat> {
    match WordFrom(4, bs, pos)
    case Ok(i32, p) => if i32 < MAX_INT32 then Ok(i32, p) else WordFrom(8, bs, p)
    case other => other
  }

  const X64: Codec<nat> := Codec(X64To, X64From)

  lemma {:induction false} X64RoundTrips(i: nat)
    requires i < TWO64
    ensures RoundTrips(X64, i)
  {
    Widths();
    forall bs: seq<byte>, pos: nat | At(bs, pos, X64.enc(i))
      ensures X64.dec(bs, pos) == Ok(i, pos + |X64.enc(i)|)
    {
      if i < MAX_INT32 {
        WordRoundTrip(i, 4, bs, pos);
      } else {
        AtConcat(bs, pos, LittleEndian(MAX_INT32, 4), LittleEndian(i, 8));
        WordRoundTrip(MAX_INT32, 4, bs, pos);
        WordRoundTrip(i, 8, bs, pos + 4);
      }
    }
  }

  // ------------------------------------------------------------------
  // Vectors: the size, then the elements from the last to the first
  // ------------------------------------------------------------------

  // An exception that leaves a noexcept template ends the process.
  function Noexcept<T>(p: Parsed<T>): Parsed<T> {
    if p.Ok? then p else Aborted
  }

  function ItemsTo<T>(enc: T -> seq<byte>, ts: seq<T>): seq<byte>
    decreases |ts|
  {
    if ts == [] then [] else enc(ts[|ts| - 1]) + ItemsTo(enc, ts[..|ts| - 1])
  }

  // the last n elements of a vector still to be read, placed in their final order
  function ItemsFrom<T>(dec: (seq<byte>, nat) -> Parsed<T>, bs: seq<byte>, pos: nat, n: nat): (r: Parsed<seq<T>>)
    ensures r.Ok? ==> |r.value| == n
    decreases n
  {
    if n == 0 then Ok([], pos)
    else
      match dec(bs, pos)
      case Ok(t, p) => (
        match ItemsFrom(dec, bs, p, n - 1)
        case Ok(ts, p2) => Ok(ts + [t], p2)
        case other => other)
      case Thrown(p) => Thrown(p)
      case ThrownOther => ThrownOther
      case Aborted => Aborted
  }

  // The loop index is an int32: a size above 2^31 makes it start negative, and the
  // elements keep their initial value.
  function LayoutItems<T>(zero: T, dec: (seq<byte>, nat) -> Parsed<T>, bs: seq<byte>, pos: nat,
                          size: nat): Parsed<seq<T>> {
    if size <= TWO31 then ItemsFrom(dec, bs, pos, size) else Ok(seq(size, _ => zero), pos)
  }

  function LayoutFrom<T>(zero: T, dec: (seq<byte>, nat) -> Parsed<T>, bs: seq<byte>, pos: nat): Parsed<seq<T>> {
    match WordFrom(4, bs, pos)
    case Ok(size, p) => LayoutItems(zero, dec, bs, p, size)
    case Thrown(p) => Thrown(p)
    case ThrownOther => ThrownOther
    case Aborted => Aborted
  }

  function VectorTo<T>(enc: T -> seq<byte>, ts: seq<T>): seq<byte> {
    LittleEndian(|ts| % TWO32, 4) + ItemsTo(enc, ts)
  }

  function Vector<T(!new)>(zero: T, c: Codec<T>): Codec<seq<T>> {
    Codec((ts: seq<T>) => VectorTo(c.enc, ts),
          (bs: seq<byte>, pos: nat) => Noexcept(LayoutFrom(zero, c.dec, bs, pos)))
  }

  ghost predicate AllRoundTrip<T(!new)>(c: Codec<T>, ts: seq<T>) {
    forall i :: 0 <= i < |ts| ==> RoundTrips(c, ts[i])
  }

  lemma {:induction false} ItemsRoundTrip<T(!new)>(c: Codec<T>, ts: seq<T>, bs: seq<byte>, pos: nat)
    requires AllRoundTrip(c, ts) && At(bs, pos, ItemsTo(c.enc, ts))
    ensures ItemsFrom(c.dec, bs, pos, |ts|) == Ok(ts, pos + |ItemsTo(c.enc, ts)|)
    decreases |ts|
  {
    if ts != [] {
      var last, front := ts[|ts| - 1], ts[..|ts| - 1];
      AtConcat(bs, pos, c.enc(last), ItemsTo(c.enc, front));
      assert c.dec(bs, pos) == Ok(last, pos + |c.enc(last)|) by {
        assert RoundTrips(c, ts[|ts| - 1]);
      }
      ItemsRoundTrip(c, front, bs, pos + |c.enc(last)|);
      assert front + [last] == ts;
    }
  }

  lemma {:induction false} SizePrefix(size: nat, rest: seq<byte>, bs: seq<byte>, pos: nat)
    requires size < TWO32 && At(bs, pos, LittleEndian(size, 4) + rest)
    ensures WordFrom(4, bs, pos) == Ok(size, pos + 4) && At(bs, pos + 4, rest)
  {
    AtConcat(bs, pos, LittleEndian(size, 4), rest);
    Widths();
    WordRoundTrip(size, 4, bs, pos);
  }

  lemma {:induction false} LayoutItemsRoundTrip<T(!new)>(zero: T, c: Codec<T>, ts: seq<T>, bs: seq<byte>, pos: nat)
    requires AllRoundTrip(c, ts) && |ts| <= TWO31 && At(bs, pos, ItemsTo(c.enc, ts))
    ensures LayoutItems(zero, c.dec, bs, pos, |ts|) == Ok(ts, pos + |ItemsTo(c.enc, ts)|)
  {
    ItemsRoundTrip(c, ts, bs, pos);
  }

  lemma {:induction false} LayoutRoundTrip<T(!new)>(zero: T, c: Codec<T>, ts: seq<T>, bs: seq<byte>, pos: nat)
    requires AllRoundTrip(c, ts) && |ts| <= TWO31 && At(bs, pos, VectorTo(c.enc, ts))
    ensures LayoutFrom(zero, c.dec, bs, pos) == Ok(ts, pos + |VectorTo(c.enc, ts)|)
  {
    var items := ItemsTo(c.enc, ts);
    assert |ts| % TWO32 == |ts|;
    assert VectorTo(c.enc, ts) == LittleEndian(|ts|, 4) + items;
    hide WordFrom, ItemsTo, LayoutItems, At, AllRoundTrip, VectorTo, LittleEndian;
    SizePrefix(|ts|, items, bs, pos);
    LayoutItemsRoundTrip(zero, c, ts, bs, pos + 4);
  }

  lemma {:induction false} VectorRoundTrips<T(!new)>(zero: T, c: Codec<T>, ts: seq<T>)
    requires AllRoundTrip(c, ts) && |ts| <= TWO31
    ensures RoundTrips(Vector(zero, c), ts)
  {
    var v := Vector(zero, c);
    forall bs: seq<byte>, pos: nat | At(bs, pos, v.enc(ts))
      ensures v.dec(bs, pos) == Ok(ts, pos + |v.enc(ts)|)
    {
      LayoutRoundTrip(zero, c, ts, bs, pos);
    }
  }

  // A vector of more than 2^31 elements: its own encoding reads back as something else.
  lemma {:induction false} LongVectorFails<T(!new)>(zero: T, c: Codec<T>, ts: seq<T>)
    requires |ts| > TWO31 && c.enc(ts[|ts| - 1]) != []
    ensures !RoundTrips(Vector(zero, c), ts)
  {
    var v := Vector(zero, c);
    var enc := v.enc(ts);
    var size := |ts| % TWO32;
    assert enc[0..|enc|] == enc;
    assert At(enc, 0, v.enc(ts));
    SizePrefix(size, ItemsTo(c.enc, ts), enc, 0);
    var got := LayoutFrom(zero, c.dec, enc, 0);
    if size <= TWO31 {
      assert got.Ok? ==> |got.value| == size;
      assert got != Ok(ts, |enc|);
    } else {
      assert got.pos == 4 < |enc|;
    }
    assert v.dec(enc, 0) != Ok(ts, 0 + |enc|);
  }

  /** Vectors of round-tripping elements read back exactly up to 2^31 elements. */
  lemma {:induction false} VectorRoundTripsIffShort<T(!new)>(zero: T, c: Codec<T>, ts: seq<T>)
    requires AllRoundTrip(c, ts) && (ts != [] ==> c.enc(ts[|ts| - 1]) != [])
    ensures RoundTrips(Vector(zero, c), ts) <==> |ts| <= TWO31
  {
    if |ts| <= TWO31 {
      VectorRoundTrips(zero, c, ts);
    } else {
      LongVectorFails(zero, c, ts);
    }
  }

  // ------------------------------------------------------------------
  // Pairs and optionals
  // ------------------------------------------------------------------

  function PairFrom<X, Y>(dx: (seq<byte>, nat) -> Parsed<X>, dy: (seq<byte>, nat) -> Parsed<Y>,
                          bs: seq<byte>, pos: nat): Parsed<(X, Y)>
  {
    match dx(bs, pos)
    case Ok(x, p) => (
      match dy(bs, p)
      case Ok(y, p2) => Ok((x, y), p2)
      case _ => Aborted)
    case _ => Aborted
  }

  function Pair<X(!new), Y(!new)>(cx: Codec<X>, cy: Codec<Y>): Codec<(X, Y)> {
    Codec((p: (X, Y)) => cx.enc(p.0) + cy.enc(p.1),
          (bs: seq<byte>, pos: nat) => PairFrom(cx.dec, cy.dec, bs, pos))
  }

  lemma {:induction false} PairRoundTrips<X(!new), Y(!new)>(cx: Codec<X>, cy: Codec<Y>, p: (X, Y))
    requires RoundTrips(cx, p.0) && RoundTrips(cy, p.1)
    ensures RoundTrips(Pair(cx, cy), p)
  {
    var c := Pair(cx, cy);
    forall bs: seq<byte>, pos: nat | At(bs, pos, c.enc(p))
      ensures c.dec(bs, pos) == Ok(p, pos + |c.enc(p)|)
    {
      AtConcat(bs, pos, cx.enc(p.0), cy.enc(p.1));
    }
  }

  function OptionTo<X>(enc: X -> seq<byte>, xo: Option<X>): seq<byte> {
    match xo
    case None => BoolTo(false)
    case Some(x) => BoolTo(true) + enc(x)
  }

  function OptionFrom<X>(dec: (seq<byte>, nat) -> Parsed<X>, bs: seq<byte>, pos: nat): Parsed<Option<X>> {
    match BoolFrom(bs, pos)
    case Ok(false, p) => Ok(None, p)
    case Ok(true, p) => (
      match dec(bs, p)
      case Ok(x, p2) => Ok(Some(x), p2)
      case _ => Aborted)
    case _ => Aborted
  }

  function Optional<X(!new)>(c: Codec<X>): Codec<Option<X>> {
    Codec((xo: Option<X>) => OptionTo(c.enc, xo),
          (bs: seq<byte>, pos: nat) => OptionFrom(c.dec, bs, pos))
  }

  lemma {:induction false} OptionRoundTrips<X(!new)>(c: Codec<X>, xo: Option<X>)
    requires xo.Some? ==> RoundTrips(c, xo.value)
    ensures RoundTrips(Optional(c), xo)
  {
    var o := Optional(c);
    forall bs: seq<byte>, pos: nat | At(bs, pos, o.enc(xo))
      ensures o.dec(bs, pos) == Ok(xo, pos + |o.enc(xo)|)
    {
      match xo
      case None =>
        BoolRoundTrips(false);
        assert At(bs, pos, BOOL.enc(false));
      case Some(x) =>
        AtConcat(bs, pos, BoolTo(true), c.enc(x));
        BoolRoundTrips(true);
        assert At(bs, pos, BOOL.enc(true));
    }
  }
}
