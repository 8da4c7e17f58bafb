/** Fragment records: a length, then a payload whose tail grew over the versions. */
module FragmentCodec {
  import opened Sequences
  import opened Bytes
  import opened Llio
  import opened ManifestFields

  // ------------------------------------------------------------------
  // Small strings: a varint length, then the bytes
  // ------------------------------------------------------------------

  function SmallTo(s: seq<byte>): seq<byte> { VarintTo(|s|) + s }

  // A length that is negative as an int makes `resize` throw std::length_error.
  function SmallFrom(bs: seq<byte>, pos: nat): Parsed<seq<byte>> {
    var v := VarintFrom(bs, pos);
    if !v.Ok? then Failed(v)
    else
      var size := AsInt32(v.value);
      if size < 0 then ThrownOther
      else if v.pos + size > |bs| then Thrown(v.pos)
      else Ok(bs[v.pos..v.pos + size], v.pos + size)
  }

  function OptSmallTo(o: Option<seq<byte>>): seq<byte> {
    match o
    case None => BoolTo(false)
    case Some(s) => BoolTo(true) + SmallTo(s)
  }

  function OptSmallFrom(bs: seq<byte>, pos: nat): Parsed<Option<seq<byte>>> {
    var has := BoolFrom(bs, pos);
    if !has.Ok? then Failed(has)
    else if !has.value then Ok(None, has.pos)
    else
      var s := SmallFrom(bs, has.pos);
      if !s.Ok? then Failed(s) else Ok(Some(s.value), s.pos)
  }

  predicate SmallFits(o: Option<seq<byte>>) {
    o.Some? ==> |o.value| < TWO31
  }

  lemma {:induction false} SmallReads(s: seq<byte>, bs: seq<byte>, pos: nat)
    requires |s| < TWO31 && At(bs, pos, SmallTo(s))
    ensures SmallFrom(bs, pos) == Ok(s, pos + |SmallTo(s)|)
  {
    VarintReads(|s|, s, bs, pos);
    hide VarintFrom, VarintTo;
  }

  lemma {:induction false} BoolReads(b: bool, bs: seq<byte>, pos: nat)
    requires At(bs, pos, BoolTo(b))
    ensures BoolFrom(bs, pos) == Ok(b, pos + 1)
  {
    BoolRoundTrips(b);
    assert At(bs, pos, BOOL.enc(b));
  }

  lemma {:induction false} OptSmallReads(o: Option<seq<byte>>, bs: seq<byte>, pos: nat)
    requires SmallFits(o) && At(bs, pos, OptSmallTo(o))
    ensures OptSmallFrom(bs, pos) == Ok(o, pos + |OptSmallTo(o)|)
  {
    match o
    case None =>
      BoolReads(false, bs, pos);
    case Some(s) =>
      AtConcat(bs, pos, BoolTo(true), SmallTo(s));
      BoolReads(true, bs, pos);
      SmallReads(s, bs, pos + 1);
  }

  // ------------------------------------------------------------------
  // The part every version has: version, location, checksum, length
  // ------------------------------------------------------------------

  function LocCodec(): Codec<(Option<nat>, nat)> {
    Pair(Optional(X64), U32)
  }

  type Head = ((), ((Option<nat>, nat), (Checksum, nat)))

  function HeadCodec(): Codec<Head> {
    Then(ONE, Then(LocCodec(), Then(CHECKSUM, U32)))
  }

  function HeadOf(f: Fragment): Head {
    ((), (f.loc, (f.crc, f.len)))
  }

  predicate FragmentFits(f: Fragment) {
    && (f.loc.0.Some? ==> f.loc.0.value < TWO64) && f.loc.1 < TWO32
    && ChecksumFits(f.crc) && f.len < TWO32 && SmallFits(f.ctr) && SmallFits(f.fnr)
  }

  lemma {:induction false} LocRoundTrips(loc: (Option<nat>, nat))
    requires (loc.0.Some? ==> loc.0.value < TWO64) && loc.1 < TWO32
    ensures RoundTrips(LocCodec(), loc)
  {
    if loc.0.Some? {
      X64RoundTrips(loc.0.value);
    }
    OptionRoundTrips(X64, loc.0);
    U32RoundTrips(loc.1);
    PairRoundTrips(Optional(X64), U32, loc);
  }

  lemma {:induction false} HeadRoundTrips(f: Fragment)
    requires FragmentFits(f)
    ensures RoundTrips(HeadCodec(), HeadOf(f))
  {
    OneRoundTrips();
    LocRoundTrips(f.loc);
    ChecksumRoundTrips(f.crc);
    U32RoundTrips(f.len);
    ThenRoundTrips(CHECKSUM, U32, f.crc, f.len);
    ThenRoundTrips(LocCodec(), Then(CHECKSUM, U32), f.loc, (f.crc, f.len));
    ThenRoundTrips(ONE, Then(LocCodec(), Then(CHECKSUM, U32)), (), (f.loc, (f.crc, f.len)));
  }

  // ------------------------------------------------------------------
  // The tails: none, a counter, a counter and a name, and more to come
  // ------------------------------------------------------------------

  datatype Tail = Old | WithCtr | Current | Longer(extra: seq<byte>)

  function TailTo(f: Fragment, t: Tail): seq<byte> {
    match t
    case Old => []
    case WithCtr => OptSmallTo(f.ctr)
    case Current => OptSmallTo(f.ctr) + OptSmallTo(f.fnr)
    case Longer(extra) => OptSmallTo(f.ctr) + (OptSmallTo(f.fnr) + extra)
  }

  // an older writer had nothing to say about the newer fields
  predicate TailFits(f: Fragment, t: Tail) {
    match t
    case Old => f.ctr.None? && f.fnr.None?
    case WithCtr => f.fnr.None?
    case _ => true
  }

  // `end` is where the outer cursor stands, after the record
  function OptionalField(bs: seq<byte>, pos: nat, end: nat): Parsed<Option<seq<byte>>> {
    if AsInt32(end - pos) > 0 then OptSmallFrom(bs, pos) else Ok(None, pos)
  }

  // one optional field, then the other
  function TwoFields<T>(field: (seq<byte>, nat, nat) -> Parsed<T>, bs: seq<byte>, pos: nat, end: nat): Parsed<(T, T)> {
    var x := field(bs, pos, end);
    if !x.Ok? then Failed(x)
    else
      var y := field(bs, x.pos, end);
      if !y.Ok? then Failed(y) else Ok((x.value, y.value), y.pos)
  }

  function TailFrom(bs: seq<byte>, pos: nat, end: nat): Parsed<(Option<seq<byte>>, Option<seq<byte>>)> {
    TwoFields(OptionalField, bs, pos, end)
  }

  lemma {:induction false} OptSmallNonempty(o: Option<seq<byte>>)
    ensures |OptSmallTo(o)| > 0
  {
  }

  lemma {:induction false} OptionalFieldReads(o: Option<seq<byte>>, bs: seq<byte>, pos: nat, end: nat)
    requires SmallFits(o) && At(bs, pos, OptSmallTo(o))
    requires pos + |OptSmallTo(o)| <= end < pos + TWO31
    ensures OptionalField(bs, pos, end) == Ok(o, pos + |OptSmallTo(o)|)
  {
    OptSmallNonempty(o);
    OptSmallReads(o, bs, pos);
  }

  lemma {:induction false} NoFieldLeft(bs: seq<byte>, end: nat)
    ensures OptionalField(bs, end, end) == Ok(None, end)
  {
  }

  lemma {:induction false} TwoFieldsRead<T>(field: (seq<byte>, nat, nat) -> Parsed<T>, bs: seq<byte>, pos: nat,
                                            end: nat, x: T, p: nat, y: T, q: nat)
    requires field(bs, pos, end) == Ok(x, p) && field(bs, p, end) == Ok(y, q)
    ensures TwoFields(field, bs, pos, end) == Ok((x, y), q)
  {
  }

  lemma {:induction false} BothFieldsRead(ctr: Option<seq<byte>>, fnr: Option<seq<byte>>, bs: seq<byte>, pos: nat,
                                          end: nat)
    requires SmallFits(ctr) && SmallFits(fnr)
    requires At(bs, pos, OptSmallTo(ctr)) && At(bs, pos + |OptSmallTo(ctr)|, OptSmallTo(fnr))
    requires pos + |OptSmallTo(ctr)| + |OptSmallTo(fnr)| <= end < pos + TWO31
    ensures TailFrom(bs, pos, end) == Ok((ctr, fnr), pos + |OptSmallTo(ctr)| + |OptSmallTo(fnr)|)
  {
    var p := pos + |OptSmallTo(ctr)|;
    OptionalFieldReads(ctr, bs, pos, end);
    OptionalFieldReads(fnr, bs, p, end);
    TwoFieldsRead(OptionalField, bs, pos, end, ctr, p, fnr, p + |OptSmallTo(fnr)|);
  }

  lemma {:induction false} CtrOnlyReads(ctr: Option<seq<byte>>, bs: seq<byte>, pos: nat, end: nat)
    requires SmallFits(ctr) && At(bs, pos, OptSmallTo(ctr)) && end == pos + |OptSmallTo(ctr)| < pos + TWO31
    ensures TailFrom(bs, pos, end) == Ok((ctr, None), end)
  {
    OptionalFieldReads(ctr, bs, pos, end);
    NoFieldLeft(bs, end);
    TwoFieldsRead(OptionalField, bs, pos, end, ctr, end, None, end);
  }

  lemma {:induction false} OldTailReads(bs: seq<byte>, end: nat)
    ensures TailFrom(bs, end, end) == Ok((None, None), end)
  {
    NoFieldLeft(bs, end);
    TwoFieldsRead(OptionalField, bs, end, end, None, end, None, end);
  }

  lemma {:induction false} LongerAt(a: seq<byte>, b: seq<byte>, extra: seq<byte>, bs: seq<byte>, pos: nat)
    requires At(bs, pos, a + (b + extra))
    ensures At(bs, pos, a) && At(bs, pos + |a|, b)
  {
    AtConcat(bs, pos, a, b + extra);
    AtConcat(bs, pos + |a|, b, extra);
  }

  lemma {:induction false} TailReads(f: Fragment, t: Tail, bs: seq<byte>, pos: nat, end: nat)
    requires FragmentFits(f) && TailFits(f, t) && At(bs, pos, TailTo(f, t))
    requires end == pos + |TailTo(f, t)| < pos + TWO31
    ensures TailFrom(bs, pos, end).Ok? && TailFrom(bs, pos, end).value == (f.ctr, f.fnr)
  {
    match t
    case Old =>
      OldTailReads(bs, end);
    case WithCtr =>
      CtrOnlyReads(f.ctr, bs, pos, end);
    case Current =>
      AtConcat(bs, pos, OptSmallTo(f.ctr), OptSmallTo(f.fnr));
      BothFieldsRead(f.ctr, f.fnr, bs, pos, end);
    case Longer(extra) =>
      LongerAt(OptSmallTo(f.ctr), OptSmallTo(f.fnr), extra, bs, pos);
      BothFieldsRead(f.ctr, f.fnr, bs, pos, end);
  }

  // ------------------------------------------------------------------
  // The record
  // ------------------------------------------------------------------

  // for any encoding hc of the part that all versions have
  function Payload(hc: Codec<Head>, f: Fragment, t: Tail): seq<byte> {
    hc.enc(HeadOf(f)) + TailTo(f, t)
  }

  function RecordTo(hc: Codec<Head>, f: Fragment, t: Tail): seq<byte> {
    VarintTo(|Payload(hc, f, t)|) + Payload(hc, f, t)
  }

  // A length, then a nested message: the buffer cut off at the end of the payload.
  // The length is cut to 32 bits for the nested message, and to an int for the skip.
  function FramedFrom<T>(length: (seq<byte>, nat) -> Parsed<nat>, payload: (seq<byte>, nat, nat) -> Parsed<T>,
                         bs: seq<byte>, pos: nat): Parsed<T>
  {
    var v := length(bs, pos);
    if !v.Ok? then Failed(v)
    else
      var len := v.value % TWO32;
      if v.pos + len > |bs| then Thrown(v.pos)
      else
        var r := payload(bs[..v.pos + len], v.pos, Skip(v.pos, len));
        if !r.Ok? then Failed(r) else Ok(r.value, Skip(v.pos, len))
  }

  // the part all versions have, then what is left; `end` is where the outer cursor stands by now
  function HeadAndTail<H, T, F>(head: (seq<byte>, nat) -> Parsed<H>, tail: (seq<byte>, nat, nat) -> Parsed<T>,
                                build: (H, T) -> F, view: seq<byte>, pos: nat, end: nat): Parsed<F>
  {
    var h := head(view, pos);
    if !h.Ok? then Failed(h)
    else
      var t := tail(view, h.pos, end);
      if !t.Ok? then Failed(t) else Ok(build(h.value, t.value), t.pos)
  }

  function Build(head: Head, tail: (Option<seq<byte>>, Option<seq<byte>>)): Fragment {
    Fragment(head.1.0, head.1.1.0, head.1.1.1, tail.0, tail.1)
  }

  function PayloadFrom(hc: Codec<Head>, view: seq<byte>, pos: nat, end: nat): Parsed<Fragment> {
    HeadAndTail(hc.dec, TailFrom, Build, view, pos, end)
  }

  function RecordFrom(hc: Codec<Head>, bs: seq<byte>, pos: nat): Parsed<Fragment> {
    FramedFrom(VarintFrom, (view: seq<byte>, p: nat, end: nat) => PayloadFrom(hc, view, p, end), bs, pos)
  }

  lemma {:induction false} VarintReads(n: nat, rest: seq<byte>, bs: seq<byte>, pos: nat)
    requires n < TWO64 && At(bs, pos, VarintTo(n) + rest)
    ensures VarintFrom(bs, pos) == Ok(n, pos + |VarintTo(n)|) && At(bs, pos + |VarintTo(n)|, rest)
  {
    AtConcat(bs, pos, VarintTo(n), rest);
    VarintRoundTrips(n);
    assert At(bs, pos, VARINT.enc(n));
  }

  // The payload is read from a view that ends with it.
  lemma {:induction false} FramedReads<T>(length: (seq<byte>, nat) -> Parsed<nat>,
                                          read: (seq<byte>, nat, nat) -> Parsed<T>,
                       bs: seq<byte>, pos: nat, payload: seq<byte>, start: nat)
    requires |payload| < TWO31 && length(bs, pos) == Ok(|payload|, start) && At(bs, start, payload)
    ensures var end := start + |payload|;
      var r := read(bs[..end], start, end);
      && At(bs[..end], start, payload)
      && (r.Ok? ==> FramedFrom(length, read, bs, pos) == Ok(r.value, end))
      && (!r.Ok? ==> FramedFrom(length, read, bs, pos) == Failed(r))
  {
    var end := start + |payload|;
    assert bs[..end][start..end] == bs[start..end];
  }

  lemma {:induction false} HeadAndTailRead<H, T,
    F>(head: (seq<byte>, nat) -> Parsed<H>, tail: (seq<byte>, nat, nat) -> Parsed<T>,
                                 build: (H, T) -> F, view: seq<byte>, pos: nat, end: nat, h: H, p: nat, t: T)
    requires head(view, pos) == Ok(h, p) && tail(view, p, end).Ok? && tail(view, p, end).value == t
    ensures var r := HeadAndTail(head, tail, build, view, pos, end);
      r.Ok? && r.value == build(h, t)
  {
  }

  /** Whatever the payload, a record that reads at all ends where its length says. */
  lemma {:induction false} RecordEndsAtPrefix(hc: Codec<Head>, payload: seq<byte>, bs: seq<byte>, pos: nat)
    requires |payload| < TWO31 && At(bs, pos, VarintTo(|payload|) + payload)
    ensures var r := RecordFrom(hc, bs, pos);
      r.Ok? ==> r.pos == pos + |VarintTo(|payload|)| + |payload|
  {
    VarintReads(|payload|, payload, bs, pos);
    FramedReads(VarintFrom, (view: seq<byte>, p: nat, end: nat) => PayloadFrom(hc, view, p, end),
                bs, pos, payload, pos + |VarintTo(|payload|)|);
  }

  lemma {:induction false} BuildBack(f: Fragment)
    ensures Build(HeadOf(f), (f.ctr, f.fnr)) == f
  {
  }

  lemma {:induction false} ReadsFirst<T(!new)>(c: Codec<T>, x: T, rest: seq<byte>, bs: seq<byte>, pos: nat)
    requires RoundTrips(c, x) && At(bs, pos, c.enc(x) + rest)
    ensures c.dec(bs, pos) == Ok(x, pos + |c.enc(x)|) && At(bs, pos + |c.enc(x)|, rest)
  {
    AtConcat(bs, pos, c.enc(x), rest);
  }

  lemma {:induction false} PayloadReads(hc: Codec<Head>, f: Fragment, t: Tail, view: seq<byte>, pos: nat)
    requires RoundTrips(hc, HeadOf(f)) && FragmentFits(f) && TailFits(f, t)
    requires At(view, pos, Payload(hc, f, t)) && |Payload(hc, f, t)| < TWO31
    ensures var r := PayloadFrom(hc, view, pos, pos + |Payload(hc, f, t)|);
      r.Ok? && r.value == f
  {
    hide TailFrom, TailTo, Build, FragmentFits, TailFits, At, RoundTrips, HeadOf, HeadAndTail;
    var head := hc.enc(HeadOf(f));
    var p, end := pos + |head|, pos + |head + TailTo(f, t)|;
    ReadsFirst(hc, HeadOf(f), TailTo(f, t), view, pos);
    TailReads(f, t, view, p, end);
    BuildBack(f);
    HeadAndTailRead(hc.dec, TailFrom, Build, view, pos, end, HeadOf(f), p, (f.ctr, f.fnr));
  }

  lemma {:induction false} RecordReads(hc: Codec<Head>, f: Fragment, t: Tail, bs: seq<byte>, pos: nat)
    requires RoundTrips(hc, HeadOf(f)) && FragmentFits(f) && TailFits(f, t) && |Payload(hc, f, t)| < TWO31
    requires At(bs, pos, RecordTo(hc, f, t))
    ensures RecordFrom(hc, bs, pos) == Ok(f, pos + |RecordTo(hc, f, t)|)
  {
    hide Payload, PayloadFrom, VarintFrom, VarintTo, At, FramedFrom, FragmentFits, TailFits, RoundTrips, HeadOf;
    var payload := Payload(hc, f, t);
    var start := pos + |VarintTo(|payload|)|;
    VarintReads(|payload|, payload, bs, pos);
    FramedReads(VarintFrom, (view: seq<byte>, p: nat, end: nat) => PayloadFrom(hc, view, p, end), bs, pos, payload,
                start);
    PayloadReads(hc, f, t, bs[..start + |payload|], start);
  }

  // ------------------------------------------------------------------
  // The format in use
  // ------------------------------------------------------------------

  function FragmentTo(f: Fragment, t: Tail): seq<byte> {
    RecordTo(HeadCodec(), f, t)
  }

  function FragmentFrom(bs: seq<byte>, pos: nat): Parsed<Fragment> {
    RecordFrom(HeadCodec(), bs, pos)
  }

  predicate Writable(f: Fragment, t: Tail) {
    FragmentFits(f) && TailFits(f, t) && |Payload(HeadCodec(), f, t)| < TWO31
  }

  /** A fragment written with an old, the current or a longer tail reads back, and the
      cursor ends exactly where the record's length says. */
  lemma {:induction false} FragmentReads(f: Fragment, t: Tail, bs: seq<byte>, pos: nat)
    requires Writable(f, t) && At(bs, pos, FragmentTo(f, t))
    ensures FragmentFrom(bs, pos) == Ok(f, pos + |FragmentTo(f, t)|)
  {
    HeadRoundTrips(f);
    RecordReads(HeadCodec(), f, t, bs, pos);
  }

  lemma {:induction false} FragmentEndsAtPrefix(payload: seq<byte>, bs: seq<byte>, pos: nat)
    requires |payload| < TWO31 && At(bs, pos, VarintTo(|payload|) + payload)
    ensures var r := FragmentFrom(bs, pos);
      r.Ok? ==> r.pos == pos + |VarintTo(|payload|)| + |payload|
  {
    RecordEndsAtPrefix(HeadCodec(), payload, bs, pos);
  }
}
