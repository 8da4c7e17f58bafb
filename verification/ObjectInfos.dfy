/** Lists of object-info records: a record whose manifest cannot be decoded is skipped, and
    the cursor stays in step with the stream. */
module ObjectInfos {
  import opened Sequences
  import opened Bytes
  import opened Llio
  import opened ManifestFields
  import FragmentCodec
  import ManifestBody

  // `unzip` stands for Snappy; `body1` and `body2` decode a decompressed manifest body
  datatype Bodies = Bodies(unzip: seq<byte> -> seq<byte>, body1: seq<byte> -> Parsed<Manifest>,
                           body2: seq<byte> -> Parsed<Manifest>)

  datatype Info = Info(name: seq<byte>, future: seq<byte>, manifest: Manifest, namespaceId: nat)

  // a parse, and whether the message can still be used after an exception
  datatype Attempt<+T> = Attempt(okToContinue: bool, parsed: Parsed<T>)

  // the decoder of a version's bodies
  function BodyOutcome(d: Bodies, version: byte, blob: seq<byte>): Parsed<Manifest> {
    if version == 1 then d.body1(d.unzip(blob)) else d.body2(d.unzip(blob))
  }

  // The compressed body is consumed before anything in it is looked at.
  function ManifestFrom(d: Bodies, bs: seq<byte>, pos: nat): Attempt<Manifest> {
    var version := U8From(bs, pos);
    if !version.Ok? then Attempt(false, Failed(version))
    else if version.value != 1 && version.value != 2 then Attempt(false, Thrown(version.pos))
    else
      var blob := StringFrom(bs, version.pos);
      if !blob.Ok? then Attempt(false, Failed(blob))
      else
        match BodyOutcome(d, version.value, blob.value)
        case Ok(m, _) => Attempt(true, Ok(m, blob.pos))
        case Thrown(_) => Attempt(true, Thrown(blob.pos))
        case ThrownOther => Attempt(true, ThrownOther)
        case Aborted => Attempt(true, Aborted)
  }

  // in the handler: the namespace id is read before the exception goes on
  function Rethrown(bs: seq<byte>, pos: nat): Parsed<(Manifest, nat)> {
    match X64From(bs, pos)
    case Ok(_, p) => Thrown(p)
    case Thrown(p) => Thrown(p)
    case ThrownOther => ThrownOther
    case Aborted => Aborted
  }

  function ManifestWithNamespaceIdFrom(d: Bodies, bs: seq<byte>, pos: nat): Attempt<(Manifest, nat)> {
    var a := ManifestFrom(d, bs, pos);
    match a.parsed
    case Ok(m, p) => (
      match X64From(bs, p)
      case Ok(id, q) => Attempt(true, Ok((m, id), q))
      case Thrown(q) => Attempt(true, Rethrown(bs, q))
      case ThrownOther => Attempt(true, ThrownOther)
      case Aborted => Attempt(true, Aborted))
    case Thrown(p) => if a.okToContinue then Attempt(true, Rethrown(bs, p)) else Attempt(false, Thrown(p))
    case ThrownOther => Attempt(a.okToContinue, ThrownOther)
    case Aborted => Attempt(a.okToContinue, Aborted)
  }

  type Failure = p: Parsed<seq<Info>> | !p.Ok? witness Aborted

  // what one record comes to
  datatype Record = Got(info: Info, pos: nat) | Skipped(pos: nat) | Stopped(failure: Failure)

  function InfoFrom(d: Bodies, bs: seq<byte>, pos: nat): Record {
    var names := ThenFrom(StringFrom, StringFrom, bs, pos);
    if !names.Ok? then Stopped(Failed(names))
    else
      var a := ManifestWithNamespaceIdFrom(d, bs, names.pos);
      match a.parsed
      case Ok(mi, p) =>
        // the names are asserted to be equal
        if names.value.0 != mi.0.name then Stopped(Aborted)
        else Got(Info(names.value.0, names.value.1, mi.0, mi.1), p)
      case Thrown(p) => if a.okToContinue then Skipped(p) else Stopped(Thrown(p))
      case ThrownOther => Stopped(ThrownOther)
      case Aborted => Stopped(Aborted)
  }

  // n records from pos on
  function InfosFrom(one: (seq<byte>, nat) -> Record, bs: seq<byte>, pos: nat, n: nat): Parsed<seq<Info>>
    decreases n
  {
    if n == 0 then Ok([], pos)
    else
      match one(bs, pos)
      case Got(i, p) => Prepend(i, InfosFrom(one, bs, p, n - 1))
      case Skipped(p) => InfosFrom(one, bs, p, n - 1)
      case Stopped(failure) => failure
  }

  function Prepend(i: Info, rest: Parsed<seq<Info>>): Parsed<seq<Info>> {
    match rest
    case Ok(infos, p) => Ok([i] + infos, p)
    case other => other
  }

  // the loop counts down an int32
  function Count(size: nat): nat { if size <= TWO31 then size else 0 }

  function ObjectInfosFrom(d: Bodies, bs: seq<byte>, pos: nat): Parsed<seq<Info>> {
    var size := WordFrom(4, bs, pos);
    if !size.Ok? then Failed(size)
    else InfosFrom((b: seq<byte>, p: nat) => InfoFrom(d, b, p), bs, size.pos, Count(size.value))
  }

  method ReadObjectInfos(d: Bodies, bs: seq<byte>, start: nat) returns (r: Parsed<seq<Info>>)
    ensures r == ObjectInfosFrom(d, bs, start)
  {
    var size := WordFrom(4, bs, start);
    if size.Thrown? {
      return Thrown(size.pos);
    }
    WordIsSmall(bs, start);
    r := ReadInfos((b: seq<byte>, p: nat) => InfoFrom(d, b, p), bs, size.pos, size.value);
  }

  /** The reading loop: pushes the decodable records, skips the others. */
  method ReadInfos(one: (seq<byte>, nat) -> Record, bs: seq<byte>, start: nat, size: nat) returns (r: Parsed<seq<Info>>)
    requires size < TWO32
    ensures r == InfosFrom(one, bs, start, Count(size))
  {
    var pos := start;
    var infos: seq<Info> := [];
    var i := if size <= TWO31 then size - 1 else size - 1 - TWO32; // as an int32
    PushedNothing(InfosFrom(one, bs, start, Count(size)));
    while i >= 0
      invariant i >= -1 || Count(size) == 0
      invariant InfosFrom(one, bs, start, Count(size))
                == Pushed(infos, InfosFrom(one, bs, pos, if i >= 0 then i + 1 else 0))
    {
      var record := one(bs, pos);
      match record {
        case Got(info, p) =>
          PushedPrepend(infos, info, InfosFrom(one, bs, p, i));
          infos := infos + [info];
          pos := p;
        case Skipped(p) =>
          pos := p;
        case Stopped(failure) =>
          return failure;
      }
      i := i - 1;
    }
    r := Ok(infos, pos);
    assert infos + [] == infos;
  }

  // what was pushed already, then the rest
  ghost function Pushed(infos: seq<Info>, rest: Parsed<seq<Info>>): Parsed<seq<Info>> {
    match rest
    case Ok(more, p) => Ok(infos + more, p)
    case other => other
  }

  lemma {:induction false} PushedNothing(rest: Parsed<seq<Info>>)
    ensures Pushed([], rest) == rest
  {
    if rest.Ok? {
      assert [] + rest.value == rest.value;
    }
  }

  lemma {:induction false} PushedPrepend(infos: seq<Info>, i: Info, rest: Parsed<seq<Info>>)
    ensures Pushed(infos, Prepend(i, rest)) == Pushed(infos + [i], rest)
  {
    if rest.Ok? {
      assert infos + ([i] + rest.value) == infos + [i] + rest.value;
    }
  }

  // ------------------------------------------------------------------
  // A stream of records as the server writes them
  // ------------------------------------------------------------------

  datatype Written = Written(name: seq<byte>, future: seq<byte>, version: byte, blob: seq<byte>, namespaceId: nat)

  function AfterNamesTo(w: Written): seq<byte> {
    [w.version] + (StringTo(w.blob) + X64To(w.namespaceId))
  }

  function WrittenTo(w: Written): seq<byte> {
    StringTo(w.name) + (StringTo(w.future) + AfterNamesTo(w))
  }

  function AllTo(ws: seq<Written>): seq<byte> {
    if ws == [] then [] else WrittenTo(ws[0]) + AllTo(ws[1..])
  }

  function StreamTo(ws: seq<Written>): seq<byte> {
    LittleEndian(|ws|, 4) + AllTo(ws)
  }

  predicate Fits(w: Written) {
    |w.name| < TWO31 && |w.future| < TWO31 && |w.blob| < TWO31 && w.namespaceId < TWO64
  }

  predicate KnownVersion(w: Written) { w.version == 1 || w.version == 2 }

  /** What a record does to the read of its list: it is kept, skipped, or the end of the read. */
  datatype Fate = Keep(info: Info) | Skip | Stop(how: Exit)

  // An unknown outer version throws with no way to continue.  A body that throws a
  // deserialisation_exception is skipped over; no other exception is caught.
  function FateOf(d: Bodies, w: Written): Fate {
    if !KnownVersion(w) then Stop(Deserialisation)
    else
      match BodyOutcome(d, w.version, w.blob)
      case Ok(m, _) => if m.name == w.name then Keep(Info(w.name, w.future, m, w.namespaceId)) else Stop(Abort)
      case Thrown(_) => Skip
      case ThrownOther => Stop(OtherException)
      case Aborted => Stop(Abort)
  }

  // A known version, and a body that decodes to the record's own name or throws a
  // deserialisation_exception.
  predicate GoesOn(d: Bodies, w: Written) {
    && KnownVersion(w)
    && var o := BodyOutcome(d, w.version, w.blob);
       (o.Ok? && o.value.name == w.name) || o.Thrown?
  }

  predicate Decodes(d: Bodies, w: Written) {
    BodyOutcome(d, w.version, w.blob).Ok?
  }

  function InfoOf(d: Bodies, w: Written): Info
    requires Decodes(d, w)
  {
    Info(w.name, w.future, BodyOutcome(d, w.version, w.blob).value, w.namespaceId)
  }

  // the decodable records in stream order, each with its own namespace id
  function Decodable(d: Bodies, ws: seq<Written>): seq<Info> {
    if ws == [] then []
    else (if Decodes(d, ws[0]) then [InfoOf(d, ws[0])] else []) + Decodable(d, ws[1..])
  }

  lemma {:induction false} StringReads(s: seq<byte>, rest: seq<byte>, bs: seq<byte>, pos: nat)
    requires |s| < TWO31 && At(bs, pos, StringTo(s) + rest)
    ensures StringFrom(bs, pos) == Ok(s, pos + |StringTo(s)|) && At(bs, pos + |StringTo(s)|, rest)
  {
    AtConcat(bs, pos, StringTo(s), rest);
    StringRoundTripsIffShort(s);
    assert At(bs, pos, STRING.enc(s));
  }

  lemma {:induction false} X64Reads(i: nat, bs: seq<byte>, pos: nat)
    requires i < TWO64 && At(bs, pos, X64To(i))
    ensures X64From(bs, pos) == Ok(i, pos + |X64To(i)|)
  {
    X64RoundTrips(i);
    assert At(bs, pos, X64.enc(i));
  }

  lemma {:induction false} ManifestPart(d: Bodies, w: Written, bs: seq<byte>, pos: nat)
    requires Fits(w) && KnownVersion(w) && At(bs, pos, AfterNamesTo(w))
    ensures var end := pos + |AfterNamesTo(w)|;
      ManifestWithNamespaceIdFrom(d, bs, pos)
      == Attempt(true, match BodyOutcome(d, w.version, w.blob)
                       case Ok(m, _) => Ok((m, w.namespaceId), end)
                       case Thrown(_) => Thrown(end)
                       case ThrownOther => ThrownOther
                       case Aborted => Aborted)
  {
    ByteAt(bs, pos, w.version, StringTo(w.blob) + X64To(w.namespaceId));
    StringReads(w.blob, X64To(w.namespaceId), bs, pos + 1);
    X64Reads(w.namespaceId, bs, pos + 1 + |StringTo(w.blob)|);
  }

  lemma {:induction false} BadVersionPart(d: Bodies, w: Written, bs: seq<byte>, pos: nat)
    requires !KnownVersion(w) && At(bs, pos, AfterNamesTo(w))
    ensures ManifestWithNamespaceIdFrom(d, bs, pos) == Attempt(false, Thrown(pos + 1))
  {
    ByteAt(bs, pos, w.version, StringTo(w.blob) + X64To(w.namespaceId));
  }

  lemma {:induction false} NamesPart(w: Written, bs: seq<byte>, pos: nat)
    requires Fits(w) && At(bs, pos, WrittenTo(w))
    ensures var p := pos + |StringTo(w.name)| + |StringTo(w.future)|;
      ThenFrom(StringFrom, StringFrom, bs, pos) == Ok((w.name, w.future), p) && At(bs, p, AfterNamesTo(w))
  {
    StringReads(w.name, StringTo(w.future) + AfterNamesTo(w), bs, pos);
    StringReads(w.future, AfterNamesTo(w), bs, pos + |StringTo(w.name)|);
  }

  // one record's reader did what the record's fate is
  predicate Did(r: Record, f: Fate, end: nat) {
    match f
    case Keep(info) => r == Got(info, end)
    case Skip => r == Skipped(end)
    case Stop(how) => r.Stopped? && Exits(r.failure, how)
  }

  /** One record of any version and any body: kept or skipped, the cursor goes to its end. */
  lemma {:induction false} RecordReads(d: Bodies, w: Written, bs: seq<byte>, pos: nat)
    requires Fits(w) && At(bs, pos, WrittenTo(w))
    ensures Did(InfoFrom(d, bs, pos), FateOf(d, w), pos + |WrittenTo(w)|)
  {
    hide ThenFrom, StringFrom, StringTo, At, ManifestWithNamespaceIdFrom, BodyOutcome, AfterNamesTo, Fits;
    NamesPart(w, bs, pos);
    if KnownVersion(w) {
      ManifestPart(d, w, bs, pos + |StringTo(w.name)| + |StringTo(w.future)|);
    } else {
      BadVersionPart(d, w, bs, pos + |StringTo(w.name)| + |StringTo(w.future)|);
    }
  }

  predicate AllFit(ws: seq<Written>) {
    forall i :: 0 <= i < |ws| ==> Fits(ws[i])
  }

  predicate AllGoOn(d: Bodies, ws: seq<Written>) {
    forall i :: 0 <= i < |ws| ==> GoesOn(d, ws[i])
  }

  // how the first record that ends the read ends it
  function FirstExit(d: Bodies, ws: seq<Written>): Option<Exit> {
    if ws == [] then None
    else if FateOf(d, ws[0]).Stop? then Some(FateOf(d, ws[0]).how)
    else FirstExit(d, ws[1..])
  }

  datatype Item = Item(enc: seq<byte>, fate: Fate)

  // the reader of one record does this wherever the record's bytes stand
  ghost predicate Meets(one: (seq<byte>, nat) -> Record, item: Item) {
    forall bs: seq<byte>, pos: nat {:trigger At(bs, pos, item.enc)} :: At(bs, pos, item.enc) ==>
      Did(one(bs, pos), item.fate, pos + |item.enc|)
  }

  function ItemsOf(d: Bodies, ws: seq<Written>): (items: seq<Item>)
    ensures |items| == |ws|
  {
    if ws == [] then [] else [Item(WrittenTo(ws[0]), FateOf(d, ws[0]))] + ItemsOf(d, ws[1..])
  }

  function Joined(items: seq<Item>): seq<byte> {
    if items == [] then [] else items[0].enc + Joined(items[1..])
  }

  function Kept(items: seq<Item>): seq<Info> {
    if items == [] then []
    else if items[0].fate.Keep? then [items[0].fate.info] + Kept(items[1..])
    else Kept(items[1..])
  }

  function Ending(items: seq<Item>): Option<Exit> {
    if items == [] then None
    else if items[0].fate.Stop? then Some(items[0].fate.how)
    else Ending(items[1..])
  }

  ghost predicate AllMeet(one: (seq<byte>, nat) -> Record, items: seq<Item>) {
    items == [] || (Meets(one, items[0]) && AllMeet(one, items[1..]))
  }

  lemma {:induction false} ItemsRead(one: (seq<byte>, nat) -> Record, items: seq<Item>, bs: seq<byte>, pos: nat)
    requires AllMeet(one, items) && At(bs, pos, Joined(items))
    ensures var r := InfosFrom(one, bs, pos, |items|);
            match Ending(items)
            case None => r == Ok(Kept(items), pos + |Joined(items)|)
            case Some(how) => Exits(r, how)
    decreases |items|
  {
    if items != [] {
      AtConcat(bs, pos, items[0].enc, Joined(items[1..]));
      if !items[0].fate.Stop? {
        ItemsRead(one, items[1..], bs, pos + |items[0].enc|);
      }
    }
  }

  lemma {:induction false} RecordMeets(d: Bodies, one: (seq<byte>, nat) -> Record, w: Written)
    requires forall b: seq<byte>, p: nat :: one(b, p) == InfoFrom(d, b, p)
    requires Fits(w)
    ensures Meets(one, Item(WrittenTo(w), FateOf(d, w)))
  {
    forall bs: seq<byte>, pos: nat | At(bs, pos, WrittenTo(w))
      ensures Did(InfoFrom(d, bs, pos), FateOf(d, w), pos + |WrittenTo(w)|)
    {
      RecordReads(d, w, bs, pos);
    }
  }

  lemma {:induction false} WrittenItems(d: Bodies, one: (seq<byte>, nat) -> Record, ws: seq<Written>)
    requires forall b: seq<byte>, p: nat :: one(b, p) == InfoFrom(d, b, p)
    requires AllFit(ws)
    ensures AllMeet(one, ItemsOf(d, ws)) && Joined(ItemsOf(d, ws)) == AllTo(ws)
    ensures Ending(ItemsOf(d, ws)) == FirstExit(d, ws)
    ensures FirstExit(d, ws).None? <==> AllGoOn(d, ws)
    ensures AllGoOn(d, ws) ==> Kept(ItemsOf(d, ws)) == Decodable(d, ws)
  {
    if ws != [] {
      RecordMeets(d, one, ws[0]);
      WrittenItems(d, one, ws[1..]);
      GoOnSplits(d, ws);
      assert ItemsOf(d, ws)[1..] == ItemsOf(d, ws[1..]);
      assert [] + Decodable(d, ws[1..]) == Decodable(d, ws[1..]);
    }
  }

  lemma {:induction false} GoOnSplits(d: Bodies, ws: seq<Written>)
    requires ws != []
    ensures AllGoOn(d, ws) <==> GoesOn(d, ws[0]) && AllGoOn(d, ws[1..])
  {
    assert forall i :: 1 <= i < |ws| ==> ws[i] == ws[1..][i - 1];
  }

  /** Whatever the records: reading a stream gives exactly the decodable ones in stream order with
      their own namespace ids, and stops after the last record, if and only if every record has a
      known manifest version and a body that decodes to its own name or throws a
      deserialisation_exception.  Otherwise the read ends as its first other record ends it. */
  lemma {:induction false} StreamReads(d: Bodies, ws: seq<Written>, bs: seq<byte>, pos: nat)
    requires |ws| <= TWO31 && AllFit(ws) && At(bs, pos, StreamTo(ws))
    ensures AllGoOn(d, ws) <==> ObjectInfosFrom(d, bs, pos) == Ok(Decodable(d, ws), pos + |StreamTo(ws)|)
    ensures AllGoOn(d, ws) <==> FirstExit(d, ws).None?
    ensures !AllGoOn(d, ws) ==> Exits(ObjectInfosFrom(d, bs, pos), FirstExit(d, ws).value)
  {
    SizePrefix(|ws|, AllTo(ws), bs, pos);
    var one := (b: seq<byte>, p: nat) => InfoFrom(d, b, p);
    WrittenItems(d, one, ws);
    ItemsRead(one, ItemsOf(d, ws), bs, pos + 4);
  }

  // the blob is a version 2 body
  predicate HoldsBody(d: Bodies, w: Written, body: seq<byte>) {
    w.version == 2 && d.unzip(w.blob) == body && d.body2(body) == ManifestBody.BodyFrom(body)
  }

  /** A version 2 body that ends in anything but a deserialisation_exception, after any records that go
      on, ends the read of the whole list in the same way. */
  lemma {:induction false} BodyEndsTheRead(d: Bodies, ws: seq<Written>, i: nat, body: seq<byte>, how: Exit,
                                           bs: seq<byte>, pos: nat)
    requires |ws| <= TWO31 && AllFit(ws) && At(bs, pos, StreamTo(ws))
    requires i < |ws| && AllGoOn(d, ws[..i])
    requires HoldsBody(d, ws[i], body) && Exits(ManifestBody.BodyFrom(body), how) && how != Deserialisation
    ensures KnownVersion(ws[i]) && Exits(ObjectInfosFrom(d, bs, pos), how)
  {
    StreamReads(d, ws, bs, pos);
    FirstExitAt(d, ws, i);
  }

  /** One record with an unknown checksum type anywhere among records that go on, though all
      versions are known, ends the read of the whole list in an uncaught exception. */
  lemma {:induction false} UnknownChecksumEndsTheRead(d: Bodies, ws: seq<Written>, i: nat, m: Manifest, b: byte,
                                                      rest: seq<byte>,
                                                      bs: seq<byte>, pos: nat)
    requires |ws| <= TWO31 && AllFit(ws) && At(bs, pos, StreamTo(ws))
    requires i < |ws| && AllGoOn(d, ws[..i])
    requires ManifestBody.ManifestFits(m) && !(1 <= b <= 3)
    requires HoldsBody(d, ws[i], ManifestBody.UpToChecksum(m, [b] + rest))
    ensures KnownVersion(ws[i]) && ObjectInfosFrom(d, bs, pos).ThrownOther?
  {
    ManifestBody.UnknownChecksumFails(m, b, rest);
    BodyEndsTheRead(d, ws, i, ManifestBody.UpToChecksum(m, [b] + rest), OtherException, bs, pos);
  }

  lemma {:induction false} FirstExitAt(d: Bodies, ws: seq<Written>, i: nat)
    requires i < |ws| && AllGoOn(d, ws[..i]) && FateOf(d, ws[i]).Stop?
    ensures FirstExit(d, ws) == Some(FateOf(d, ws[i]).how) && !AllGoOn(d, ws)
    decreases |ws|
  {
    if i > 0 {
      assert ws[..i][0] == ws[0] && ws[1..][..i - 1] == ws[..i][1..];
      GoOnSplits(d, ws[..i]);
      FirstExitAt(d, ws[1..], i - 1);
      GoOnSplits(d, ws);
    }
  }

  /** A version 2 record of a well-formed manifest is one of the decodable ones, with an
      old, the current or a longer fragment tail. */
  lemma {:induction false} Version2IsDecodable(d: Bodies, w: Written, m: Manifest, t: FragmentCodec.Tail,
                                               rest: seq<byte>)
    requires HoldsBody(d, w, ManifestBody.BodyTo(m, t) + rest)
    requires ManifestBody.ManifestFits(m) && ManifestBody.FragmentsFit(m.fragments, t) && m.name == w.name
    ensures Decodes(d, w) && GoesOn(d, w) && InfoOf(d, w) == Info(w.name, w.future, m, w.namespaceId)
  {
    ManifestBody.BodyReads(m, t, rest);
  }
}
