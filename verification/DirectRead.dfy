/** The fast path: the pieces are regrouped per OSD, read there, and decrypted in place. */
module DirectRead {
  import opened Sequences
  import opened Bytes
  import opened Llio
  import opened ManifestFields
  import opened ObjectBytes
  import opened FragmentKeys
  import opened ReadPath
  import opened Memory
  import Ctr

  // What comes of asking for a connection to an OSD: there is no pool for it, or its pool gave none,
  // because it is paused or connecting failed.
  datatype Reach = Connected | Unreachable | NoConnection

  datatype KeyAnswer = Key(key: seq<byte>) | NoKey | KeyThrows

  /** Everything outside the client.  The oracles are indexed by the moment of the call: a call
      may come out differently every time. */
  datatype Env = Env(
    w: World,
    levels: nat,
    osd: (nat, seq<byte>) -> seq<bv8>,         // the fragment an OSD stores under a key
    reach: (nat, nat) -> Reach,                // moment, OSD
    breaks: nat -> Option<seq<bv8>>,           // a partial_get that fails, after these bytes
    cipher: seq<byte> -> Ctr.Cipher,           // AES under a key
    sha: seq<byte> -> seq<byte>,
    keys: nat -> KeyAnswer,
    fault: nat -> Ctr.Fault,
    object_: (nat, seq<byte>) -> seq<bv8>,     // the object of that name, as the proxy has it
    proxyBreaks: nat -> Option<nat>)           // a proxy read that fails, after that many objects

  function Last(e: Env): nat
    requires e.levels > 0
  {
    e.levels - 1
  }

  // the fragment that holds the piece, as its OSD stores it
  function StoredOf(e: Env, p: Piece): seq<bv8>
    requires p.l.loc.0.Some?
  {
    e.osd(p.l.loc.0.value,
          FragmentKey(FragmentId(p.l.namespaceId, p.l.objectId, p.l.loc.1, p.l.chunkId, p.l.fragmentId)))
  }

  // the piece as it arrives
  function RawData(e: Env, p: Piece): seq<bv8>
    requires p.l.loc.0.Some?
  {
    Slice(StoredOf(e, p), p.l.offset, p.l.length)
  }

  predicate SupportsPartialDecrypt(info: EncryptInfo) {
    info.NoEncryption? || info.mode.Ctr?
  }

  // read_objects_slices leaves any other piece to the proxy
  predicate OnFastPath(p: Piece) {
    p.l.loc.0.Some? && !p.l.usesCompression && SupportsPartialDecrypt(p.l.encryptInfo)
  }

  // What is stored of a fragment that is not compressed is the fragment, or in counter mode its
  // encryption under every key of the listed hash; of any other nothing is known.
  ghost predicate StoredRight(e: Env, p: Piece)
    requires e.levels > 0 && p.l.loc.0.Some?
  {
    var plain := e.w.fragment(Last(e), RefOf(p.l));
    !p.l.usesCompression ==>
      match p.l.encryptInfo
      case NoEncryption => StoredOf(e, p) == plain
      case Encrypted(mode, keyId) =>
        mode == Mode.Ctr && p.l.ctr.Some? ==>
          && |p.l.ctr.value| == Ctr.BLOCK && |StoredOf(e, p)| == |plain| < TWO31
          && forall key :: e.sha(key) == keyId ==>
               Ctr.DecryptBlocks(e.cipher(key), FromBigEndian(p.l.ctr.value), StoredOf(e, p)) == plain
  }

  ghost predicate OsdsRight(e: Env)
    requires e.levels > 0
  {
    forall p :: Served(e.w, Last(e), p) && p.l.loc.0.Some? ==> StoredRight(e, p)
  }

  // a piece the fast path may work on
  ghost predicate Ready(e: Env, p: Piece)
    requires e.levels > 0
  {
    OnFastPath(p) && StoredRight(e, p) && PieceFits(e.w, Last(e), p)
  }

  ghost predicate AllReady(e: Env, ps: seq<Piece>)
    requires e.levels > 0
  {
    forall i :: 0 <= i < |ps| ==> Ready(e, ps[i])
  }

  predicate InMemory(ps: seq<Piece>, size: nat) {
    forall i :: 0 <= i < |ps| ==> ps[i].target + ps[i].l.length <= size
  }

  // nothing but the pieces' targets differs
  ghost predicate SameOutside(before: seq<bv8>, after: seq<bv8>, ps: seq<Piece>) {
    |after| == |before| && forall a :: 0 <= a < |before| && !CoveredBy(ps, a) ==> after[a] == before[a]
  }

  // ------------------------------------------------------------------
  // Regrouping
  // ------------------------------------------------------------------

  datatype AsdSlice = AsdSlice(key: seq<byte>, offset: nat, len: nat, target: nat)

  function AsdSliceOf(p: Piece): AsdSlice {
    AsdSlice(FragmentKey(FragmentId(p.l.namespaceId, p.l.objectId, p.l.loc.1, p.l.chunkId, p.l.fragmentId)),
             p.l.offset, p.l.length, p.target)
  }

  // `from[o][k]` is the index of the piece that became slice k of OSD o
  ghost predicate Grouping(ps: seq<Piece>, n: nat, perOsd: map<nat, seq<AsdSlice>>, from: map<nat, seq<nat>>)
    requires n <= |ps|
  {
    && perOsd.Keys == from.Keys
    && (forall o :: o in perOsd ==> GroupOf(ps, n, o, perOsd[o], from[o]))
    && (forall i :: 0 <= i < n ==> ps[i].l.loc.0.Some? && ps[i].l.loc.0.value in from && i in from[ps[i].l.loc.0.value])
  }

  ghost predicate GroupOf(ps: seq<Piece>, n: nat, o: nat, slices: seq<AsdSlice>, from: seq<nat>)
    requires n <= |ps|
  {
    && |slices| == |from|
    && (forall k, l :: 0 <= k < l < |from| ==> from[k] < from[l])
    && forall k :: 0 <= k < |slices| ==>
        from[k] < n && ps[from[k]].l.loc.0 == Some(o) && slices[k] == AsdSliceOf(ps[from[k]])
  }

  lemma {:induction false} EmptyGroup(ps: seq<Piece>, n: nat, o: nat)
    requires n <= |ps|
    ensures GroupOf(ps, n, o, [], [])
  {
  }

  lemma {:induction false} GroupGrows(ps: seq<Piece>, n: nat, o: nat, slices: seq<AsdSlice>, from: seq<nat>)
    requires n < |ps| && GroupOf(ps, n, o, slices, from)
    ensures GroupOf(ps, n + 1, o, slices, from)
    ensures ps[n].l.loc.0 == Some(o) ==> GroupOf(ps, n + 1, o, slices + [AsdSliceOf(ps[n])], from + [n])
  {
  }

  /** Every piece is listed once, under its own OSD and in the order of the pieces, and nothing else is. */
  method Regroup(ps: seq<Piece>) returns (perOsd: map<nat, seq<AsdSlice>>, ghost from: map<nat, seq<nat>>)
    requires forall i :: 0 <= i < |ps| ==> ps[i].l.loc.0.Some?
    ensures Grouping(ps, |ps|, perOsd, from) && NoEmptyGroup(perOsd)
  {
    hide AsdSliceOf, GroupOf;
    perOsd, from := map[], map[];
    for n := 0 to |ps|
      invariant Grouping(ps, n, perOsd, from) && NoEmptyGroup(perOsd)
    {
      var osdId := ps[n].l.loc.0.value;
      if osdId !in perOsd {
        EmptyGroup(ps, n, osdId);
        perOsd, from := perOsd[osdId := []], from[osdId := []];
      }
      forall o | o in perOsd
        ensures GroupOf(ps, n + 1, o, perOsd[o], from[o])
        ensures o == osdId ==> GroupOf(ps, n + 1, o, perOsd[o] + [AsdSliceOf(ps[n])], from[o] + [n])
      {
        GroupGrows(ps, n, o, perOsd[o], from[o]);
      }
      perOsd := perOsd[osdId := perOsd[osdId] + [AsdSliceOf(ps[n])]];
      from := from[osdId := from[osdId] + [n]];
    }
  }

  // ------------------------------------------------------------------
  // Reading
  // ------------------------------------------------------------------

  // nothing but [lo, lo + n) differs
  ghost predicate OnlyRange(before: seq<bv8>, after: seq<bv8>, lo: nat, n: nat) {
    |after| == |before| && forall a :: 0 <= a < |before| && !(lo <= a < lo + n) ==> after[a] == before[a]
  }

  lemma {:induction false} RangeKeepsRegion(before: seq<bv8>, after: seq<bv8>, lo: nat, n: nat, at: nat, data: seq<bv8>)
    requires OnlyRange(before, after, lo, n) && Region(before, at, data) && Apart(lo, n, at, |data|)
    ensures Region(after, at, data)
  {
    if data != [] && n > 0 {
      assert after[at..at + |data|] == before[at..at + |data|];
    } else if n == 0 {
      assert after == before;
    }
  }

  lemma {:induction false} RangeStaysOutside(start: seq<bv8>, before: seq<bv8>, after: seq<bv8>, ps: seq<Piece>, i: nat)
    requires SameOutside(start, before, ps) && i < |ps| && OnlyRange(before, after, ps[i].target, ps[i].l.length)
    ensures SameOutside(start, after, ps)
  {
    assert forall a: nat :: !CoveredBy(ps, a) ==> !Covers(ps[i], a);
  }

  lemma {:induction false} PutOnlyRange(mem: seq<bv8>, addr: nat, data: seq<bv8>, n: nat)
    requires addr + |data| <= |mem| && |data| <= n
    ensures OnlyRange(mem, Put(mem, addr, data), addr, n)
  {
  }

  // the OSD's answer to the read of one slice, made at t, is the whole slice
  predicate Answers(e: Env, t: nat, osd: nat, s: AsdSlice) {
    e.breaks(t).None? && |Slice(e.osd(osd, s.key), s.offset, s.len)| == s.len
  }

  // One slice: it arrives whole, or the call fails after part of something.
  method PartialGet(e: Env, t: nat, osd: nat, s: AsdSlice, mem: array<bv8>) returns (ok: bool)
    requires s.target + s.len <= mem.Length
    modifies mem
    ensures OnlyRange(old(mem[..]), mem[..], s.target, s.len)
    ensures ok <==> Answers(e, t, osd, s)
    ensures ok ==> Region(mem[..], s.target, Slice(e.osd(osd, s.key), s.offset, s.len))
  {
    var data := Slice(e.osd(osd, s.key), s.offset, s.len);
    var broken := e.breaks(t);
    if broken.Some? || |data| != s.len {
      var junk := if broken.None? then [] else if |broken.value| <= s.len then broken.value else broken.value[..s.len];
      PutOnlyRange(mem[..], s.target, junk, s.len);
      WriteBytes(mem, s.target, junk);
      return false;
    }
    PutOnlyRange(mem[..], s.target, data, s.len);
    PutRegion(mem[..], s.target, data);
    WriteBytes(mem, s.target, data);
    return true;
  }

  // the pieces in `done` have arrived
  ghost predicate Arrived(e: Env, ps: seq<Piece>, done: set<nat>, mem: seq<bv8>)
    requires forall i :: 0 <= i < |ps| ==> ps[i].l.loc.0.Some?
  {
    forall i :: i in done && i < |ps| ==> Region(mem, ps[i].target, RawData(e, ps[i]))
  }

  // what the fast path needs of its pieces
  ghost predicate Workable(e: Env, ps: seq<Piece>, size: nat)
    requires e.levels > 0
  {
    AllReady(e, ps) && AllApart(ps) && InMemory(ps, size)
  }

  lemma {:induction false} ApartEitherWay(ps: seq<Piece>, i: nat, j: nat)
    requires AllApart(ps) && i < |ps| && j < |ps| && i != j
    ensures Apart(ps[i].target, ps[i].l.length, ps[j].target, ps[j].l.length)
  {
    if i < j {
      assert Apart(ps[i].target, ps[i].l.length, ps[j].target, ps[j].l.length);
    } else {
      assert Apart(ps[j].target, ps[j].l.length, ps[i].target, ps[i].l.length);
    }
  }

  // A stretch that is no longer than the piece keeps apart from the other pieces too.
  lemma {:induction false} OneMoreArrived(e: Env, ps: seq<Piece>, done: set<nat>, before: seq<bv8>, after: seq<bv8>,
                                          i: nat)
    requires forall j :: 0 <= j < |ps| ==> ps[j].l.loc.0.Some?
    requires AllApart(ps) && i < |ps| && Arrived(e, ps, done, before)
    requires OnlyRange(before, after, ps[i].target, ps[i].l.length)
    requires Region(after, ps[i].target, RawData(e, ps[i]))
    ensures Arrived(e, ps, done + {i}, after)
  {
    forall j | j in done + {i} && j < |ps|
      ensures Region(after, ps[j].target, RawData(e, ps[j]))
    {
      if j != i {
        hide RawData, OnlyRange, Region;
        ApartEitherWay(ps, i, j);
        RawShort(e, ps[j]);
        RangeKeepsRegion(before, after, ps[i].target, ps[i].l.length, ps[j].target, RawData(e, ps[j]));
      }
    }
  }

  lemma {:induction false} RawShort(e: Env, p: Piece)
    requires p.l.loc.0.Some?
    ensures |RawData(e, p)| <= p.l.length
  {
  }

  // the first n indices
  ghost function Listed(from: seq<nat>, n: nat): set<nat>
    requires n <= |from|
  {
    if n == 0 then {} else Listed(from, n - 1) + {from[n - 1]}
  }

  lemma {:induction false} ListedAt(from: seq<nat>, n: nat, k: nat)
    requires k < n <= |from|
    ensures from[k] in Listed(from, n)
    decreases n
  {
    if k < n - 1 {
      ListedAt(from, n - 1, k);
    }
  }

  lemma {:induction false} SliceIsRaw(e: Env, ps: seq<Piece>, osd: nat, slices: seq<AsdSlice>, from: seq<nat>, k: nat)
    requires GroupOf(ps, |ps|, osd, slices, from) && k < |slices|
    ensures from[k] < |ps| && ps[from[k]].l.loc.0.Some?
    ensures slices[k].target == ps[from[k]].target && slices[k].len == ps[from[k]].l.length
    ensures Slice(e.osd(osd, slices[k].key), slices[k].offset, slices[k].len) == RawData(e, ps[from[k]])
  {
  }

  // a connection is had at t, and every slice is answered at its own moment after that
  predicate OsdAnswers(e: Env, t: nat, osd: nat, slices: seq<AsdSlice>) {
    e.reach(t, osd).Connected? && AllAnswered(e, t + 1, osd, slices, |slices|)
  }

  // the first n slices are answered, one after the other
  predicate AllAnswered(e: Env, t: nat, osd: nat, slices: seq<AsdSlice>, n: nat) {
    forall k :: 0 <= k < |slices| && k < n ==> Answers(e, t + k, osd, slices[k])
  }

  lemma {:induction false} OneMoreAnswer(e: Env, t: nat, osd: nat, slices: seq<AsdSlice>, n: nat)
    requires AllAnswered(e, t, osd, slices, n) && n < |slices|
    ensures AllAnswered(e, t, osd, slices, n + 1) <==> Answers(e, t + n, osd, slices[n])
    ensures !Answers(e, t + n, osd, slices[n]) ==> !AllAnswered(e, t, osd, slices, |slices|)
  {
    hide Answers;
  }

  // there is no pool for the OSD, or a slice was not answered, before t'
  predicate OsdFailed(e: Env, t: nat, t': nat, osd: nat, slices: seq<AsdSlice>) {
    || e.reach(t, osd).Unreachable?
    || exists k :: 0 <= k < |slices| && t + 1 + k < t' && !Answers(e, t + 1 + k, osd, slices[k])
  }

  lemma {:induction false} SliceInMemory(e: Env, ps: seq<Piece>, osd: nat, slices: seq<AsdSlice>, from: seq<nat>,
                                          k: nat, size: nat)
    requires e.levels > 0 && Workable(e, ps, size) && GroupOf(ps, |ps|, osd, slices, from) && k < |slices|
    ensures k < |from| && from[k] < |ps| && slices[k].target + slices[k].len <= size
    ensures AllApart(ps) && forall i :: 0 <= i < |ps| ==> ps[i].l.loc.0.Some?
  {
    hide StoredRight, PieceFits, AllApart, AsdSliceOf;
    SliceIsRaw(e, ps, osd, slices, from, k);
  }

  lemma {:induction false} Located(e: Env, ps: seq<Piece>, size: nat)
    requires e.levels > 0 && Workable(e, ps, size)
    ensures forall i :: 0 <= i < |ps| ==> ps[i].l.loc.0.Some?
  {
  }

  lemma {:induction false} NothingListed(from: seq<nat>, done: set<nat>)
    ensures done + Listed(from, 0) == done
  {
  }

  lemma {:induction false} OneMoreListed(from: seq<nat>, done: set<nat>, n: nat)
    requires n < |from|
    ensures done + Listed(from, n + 1) == done + Listed(from, n) + {from[n]}
  {
  }

  lemma {:induction false} NothingAnswered(e: Env, t: nat, osd: nat, slices: seq<AsdSlice>)
    ensures AllAnswered(e, t, osd, slices, 0)
  {
  }

  lemma {:induction false} OneIndexEach(ps: seq<Piece>, osd: nat, slices: seq<AsdSlice>, from: seq<nat>)
    requires (forall i :: 0 <= i < |ps| ==> ps[i].l.loc.0.Some?) && GroupOf(ps, |ps|, osd, slices, from)
    ensures |slices| == |from|
  {
    hide AsdSliceOf;
  }

  // the slices, in order, over a connection, until one is not answered: slice k is asked for at t + k
  method ReadSlices(e: Env, t: nat, osd: nat, slices: seq<AsdSlice>, mem: array<bv8>,
                    ghost ps: seq<Piece>, ghost from: seq<nat>, ghost done: set<nat>, ghost start: seq<bv8>)
    returns (ok: bool, n: nat)
    requires e.levels > 0 && Workable(e, ps, mem.Length) && GroupOf(ps, |ps|, osd, slices, from) && |slices| == |from|
    requires Arrived(e, ps, done, mem[..]) && SameOutside(start, mem[..], ps)
    modifies mem
    ensures SameOutside(start, mem[..], ps)
    ensures ok ==> n == |slices| && Arrived(e, ps, done + Listed(from, |from|), mem[..])
    ensures ok <==> AllAnswered(e, t, osd, slices, |slices|)
    ensures !ok ==> n < |slices| && !Answers(e, t + n, osd, slices[n])
  {
    hide *;
    Located(e, ps, mem.Length);
    n := 0;
    NothingListed(from, done);
    NothingAnswered(e, t, osd, slices);
    while n < |slices|
      invariant n <= |slices| && SameOutside(start, mem[..], ps) && AllAnswered(e, t, osd, slices, n)
      invariant Arrived(e, ps, done + Listed(from, n), mem[..])
    {
      ghost var before := mem[..];
      SliceInMemory(e, ps, osd, slices, from, n, mem.Length);
      SliceIsRaw(e, ps, osd, slices, from, n);
      OneMoreAnswer(e, t, osd, slices, n);
      ok := PartialGet(e, t + n, osd, slices[n], mem);
      RangeStaysOutside(start, before, mem[..], ps, from[n]);
      if !ok {
        return;
      }
      OneMoreArrived(e, ps, done + Listed(from, n), before, mem[..], from[n]);
      OneMoreListed(from, done, n);
      n := n + 1;
    }
    ok := true;
  }

  /** The slices of one OSD, in order, over one connection; each result has its own reason. */
  method ReadOsdSlices(e: Env, t: nat, osd: nat, slices: seq<AsdSlice>, mem: array<bv8>,
                       ghost ps: seq<Piece>, ghost from: seq<nat>, ghost done: set<nat>, ghost start: seq<bv8>)
    returns (rc: int, t': nat)
    requires e.levels > 0 && Workable(e, ps, mem.Length) && GroupOf(ps, |ps|, osd, slices, from)
    requires Arrived(e, ps, done, mem[..]) && SameOutside(start, mem[..], ps)
    modifies mem
    ensures SameOutside(start, mem[..], ps)
    ensures rc == 0 ==> Arrived(e, ps, done + Listed(from, |from|), mem[..])
    ensures rc in {0, -1, -2} && t < t' && (rc == -2 <==> e.reach(t, osd).NoConnection?)
    ensures rc == 0 <==> OsdAnswers(e, t, osd, slices)
    ensures rc == -1 ==> OsdFailed(e, t, t', osd, slices)
  {
    hide *;
    Located(e, ps, mem.Length);
    OneIndexEach(ps, osd, slices, from);
    Reasons(e, t, osd, slices);
    t' := t + 1;
    var reach := e.reach(t, osd);
    if reach.Unreachable? {
      return -1, t';
    }
    if reach.NoConnection? {
      return -2, t';
    }
    var ok, n := ReadSlices(e, t', osd, slices, mem, ps, from, done, start);
    if !ok {
      FailedSlice(e, t, t' + n + 1, osd, slices, n);
    }
    t' := t' + n + 1;
    return if ok then 0 else -1, t';
  }

  lemma {:induction false} Reasons(e: Env, t: nat, osd: nat, slices: seq<AsdSlice>)
    ensures OsdAnswers(e, t, osd, slices) <==>
              e.reach(t, osd).Connected? && AllAnswered(e, t + 1, osd, slices, |slices|)
    ensures e.reach(t, osd).Unreachable? ==> forall t' :: OsdFailed(e, t, t', osd, slices)
  {
    hide AllAnswered, Answers;
  }

  lemma {:induction false} FailedSlice(e: Env, t: nat, t': nat, osd: nat, slices: seq<AsdSlice>, k: nat)
    requires k < |slices| && t + 1 + k < t' && !Answers(e, t + 1 + k, osd, slices[k])
    ensures OsdFailed(e, t, t', osd, slices)
  {
    hide Answers;
  }

  method Smallest(s: set<nat>) returns (m: nat)
    requires s != {}
    ensures m in s && forall x :: x in s ==> m <= x
  {
    m :| m in s;
    var rest := s - {m};
    while rest != {}
      invariant m in s && rest <= s && forall x :: x in s && x !in rest ==> m <= x
      decreases |rest|
    {
      var y :| y in rest;
      if y < m {
        m := y;
      }
      rest := rest - {y};
    }
  }

  // every piece of the OSDs that are not left has arrived
  ghost predicate Progress(from: map<nat, seq<nat>>, left: set<nat>, done: set<nat>) {
    forall o, k :: o in from && o !in left && 0 <= k < |from[o]| ==> from[o][k] in done
  }

  lemma {:induction false} ProgressOne(from: map<nat, seq<nat>>, left: set<nat>, done: set<nat>, o: nat)
    requires Progress(from, left, done) && o in from
    ensures Progress(from, left - {o}, done + Listed(from[o], |from[o]|))
  {
    forall k | 0 <= k < |from[o]|
      ensures from[o][k] in Listed(from[o], |from[o]|)
    {
      ListedAt(from[o], |from[o]|, k);
    }
  }

  lemma {:induction false} AllProgressed(ps: seq<Piece>, perOsd: map<nat, seq<AsdSlice>>, from: map<nat, seq<nat>>,
                                         done: set<nat>, i: nat)
    requires Grouping(ps, |ps|, perOsd, from) && Progress(from, {}, done) && i < |ps|
    ensures i in done
  {
    var o := ps[i].l.loc.0.value;
    var k :| 0 <= k < |from[o]| && from[o][k] == i;
    assert from[o][k] in done;
  }

  ghost predicate AllArrived(e: Env, ps: seq<Piece>, mem: seq<bv8>)
    requires forall i :: 0 <= i < |ps| ==> ps[i].l.loc.0.Some?
  {
    forall i :: 0 <= i < |ps| ==> Region(mem, ps[i].target, RawData(e, ps[i]))
  }

  // the result is that of an OSD which was asked at u
  ghost predicate ResultOf(e: Env, t': nat, rc: int, o: nat, slices: seq<AsdSlice>, u: nat) {
    if rc == 0 then OsdAnswers(e, u, o, slices)
    else if rc == -2 then e.reach(u, o).NoConnection?
    else OsdFailed(e, u, t', o, slices)
  }

  // between `from` and `to` the OSD was asked, and answered with that result
  ghost predicate WasAsked(e: Env, t: nat, t': nat, rc: int, o: nat, slices: seq<AsdSlice>) {
    exists u: nat :: t <= u < t' && ResultOf(e, t', rc, o, slices, u)
  }

  /** OSD by OSD in ascending order, until one fails: on success every OSD has answered and every piece
      has arrived; the result of a failure is that of an OSD which failed.  Nothing outside the pieces'
      targets is touched in any case. */
  method ReadOsdsSlices(e: Env, t: nat, perOsd: map<nat, seq<AsdSlice>>, mem: array<bv8>, ghost ps: seq<Piece>,
                        ghost from: map<nat, seq<nat>>)
    returns (rc: int, t': nat)
    requires e.levels > 0 && Workable(e, ps, mem.Length) && Grouping(ps, |ps|, perOsd, from)
    modifies mem
    ensures SameOutside(old(mem[..]), mem[..], ps)
    ensures rc == 0 ==> AllArrived(e, ps, mem[..])
    ensures rc in {0, -1, -2} && t <= t'
    ensures rc == 0 ==> forall o :: o in perOsd ==> WasAsked(e, t, t', 0, o, perOsd[o])
    ensures rc != 0 ==> exists o :: o in perOsd && WasAsked(e, t, t', rc, o, perOsd[o])
  {
    ghost var start := mem[..];
    rc, t' := 0, t;
    var left := perOsd.Keys;
    ghost var done: set<nat> := {};
    while left != {}
      invariant t <= t' && rc == 0 && left <= perOsd.Keys
      invariant SameOutside(start, mem[..], ps) && Arrived(e, ps, done, mem[..]) && Progress(from, left, done)
      invariant forall o :: o in perOsd && o !in left ==> WasAsked(e, t, t', 0, o, perOsd[o])
      decreases |left|
    {
      hide Arrived, SameOutside, Progress, Region, RawData, OsdAnswers, OsdFailed, WasAsked;
      var osd := Smallest(left);
      var u := t';
      rc, t' := ReadOsdSlices(e, u, osd, perOsd[osd], mem, ps, from[osd], done, start);
      JustAsked(e, t, u, t', rc, osd, perOsd[osd]);
      if rc != 0 {
        return;
      }
      forall o | o in perOsd && o !in left ensures WasAsked(e, t, t', 0, o, perOsd[o]) {
        AskedBefore(e, t, u, t', o, perOsd[o]);
      }
      ProgressOne(from, left, done, osd);
      done := done + Listed(from[osd], |from[osd]|);
      left := left - {osd};
    }
    forall i | 0 <= i < |ps|
      ensures Region(mem[..], ps[i].target, RawData(e, ps[i]))
    {
      AllProgressed(ps, perOsd, from, done, i);
    }
  }

  lemma {:induction false} JustAsked(e: Env, t: nat, u: nat, t': nat, rc: int, o: nat, slices: seq<AsdSlice>)
    requires t <= u < t' && rc in {0, -1, -2}
    requires rc == 0 ==> OsdAnswers(e, u, o, slices)
    requires rc == -2 ==> e.reach(u, o).NoConnection?
    requires rc == -1 ==> OsdFailed(e, u, t', o, slices)
    ensures WasAsked(e, t, t', rc, o, slices)
  {
    hide OsdAnswers, OsdFailed;
    assert ResultOf(e, t', rc, o, slices, u);
  }

  lemma {:induction false} AskedBefore(e: Env, t: nat, u: nat, t': nat, o: nat, slices: seq<AsdSlice>)
    requires u <= t' && WasAsked(e, t, u, 0, o, slices)
    ensures WasAsked(e, t, t', 0, o, slices)
  {
    hide OsdAnswers, OsdFailed;
    var v: nat :| t <= v < u && ResultOf(e, u, 0, o, slices, v);
    assert ResultOf(e, t', 0, o, slices, v);
  }

  // why a piece was not read: its pool gave no connection (-2); or there is no pool, the read broke
  // off, or the OSD holds less than the piece (-1)
  ghost predicate NotRead(e: Env, u: nat, p: Piece, rc: int)
    requires p.l.loc.0.Some?
  {
    var o := p.l.loc.0.value;
    if rc == -2 then e.reach(u, o).NoConnection?
    else e.reach(u, o).Unreachable? || e.breaks(u).Some? || |RawData(e, p)| != p.l.length
  }

  ghost predicate SomeNotRead(e: Env, t: nat, t': nat, ps: seq<Piece>, rc: int)
    requires forall i :: 0 <= i < |ps| ==> ps[i].l.loc.0.Some?
  {
    exists i, u: nat :: 0 <= i < |ps| && t <= u < t' && NotRead(e, u, ps[i], rc)
  }

  lemma {:induction false} FailedAt(e: Env, v: nat, ps: seq<Piece>, rc: int, o: nat, slices: seq<AsdSlice>,
                                    from: seq<nat>, k: nat)
    requires GroupOf(ps, |ps|, o, slices, from) && k < |slices| && rc in {-1, -2}
    requires if rc == -2 then e.reach(v, o).NoConnection?
             else e.reach(v, o).Unreachable? || !Answers(e, v, o, slices[k])
    ensures k < |from| && from[k] < |ps| && ps[from[k]].l.loc.0.Some? && NotRead(e, v, ps[from[k]], rc)
  {
    SliceIsRaw(e, ps, o, slices, from, k);
    assert ps[from[k]].l.loc.0 == Some(o);
    hide RawData, Slice, GroupOf;
  }

  lemma {:induction false} FailedPiece(e: Env, t: nat, t': nat, ps: seq<Piece>, rc: int, o: nat,
                                       slices: seq<AsdSlice>, from: seq<nat>)
    requires forall i :: 0 <= i < |ps| ==> ps[i].l.loc.0.Some?
    requires GroupOf(ps, |ps|, o, slices, from) && slices != [] && rc in {-1, -2} && WasAsked(e, t, t', rc, o, slices)
    ensures SomeNotRead(e, t, t', ps, rc)
  {
    hide GroupOf, Answers, NotRead;
    var u: nat :| t <= u < t' && ResultOf(e, t', rc, o, slices, u);
    var k, v := 0, u;
    if rc == -1 && !e.reach(u, o).Unreachable? {
      k :| 0 <= k < |slices| && u + 1 + k < t' && !Answers(e, u + 1 + k, o, slices[k]);
      v := u + 1 + k;
    }
    FailedAt(e, v, ps, rc, o, slices, from, k);
    assert t <= v < t' && NotRead(e, v, ps[from[k]], rc);
  }

  // every OSD in the grouping has a slice
  ghost predicate NoEmptyGroup(perOsd: map<nat, seq<AsdSlice>>) {
    forall o :: o in perOsd ==> perOsd[o] != []
  }

  /** The fast path up to decryption: null-io reads nothing at all. */
  method ShortPath(e: Env, t: nat, useNullIo: bool, ps: seq<Piece>, mem: array<bv8>) returns (rc: int, t': nat)
    requires e.levels > 0 && Workable(e, ps, mem.Length)
    modifies mem
    ensures SameOutside(old(mem[..]), mem[..], ps)
    ensures rc == 0 && !useNullIo ==> AllArrived(e, ps, mem[..])
    ensures rc in {0, -1, -2} && t <= t' && (useNullIo ==> rc == 0 && mem[..] == old(mem[..]))
    ensures rc != 0 ==> SomeNotRead(e, t, t', ps, rc)
  {
    var perOsd, from := Regroup(ps);
    if useNullIo {
      return 0, t;
    }
    hide SameOutside, AllArrived, SomeNotRead, WasAsked, GroupOf;
    rc, t' := ReadOsdsSlices(e, t, perOsd, mem, ps, from);
    if rc != 0 {
      ghost var o :| o in perOsd && WasAsked(e, t, t', rc, o, perOsd[o]);
      FailedPiece(e, t, t', ps, rc, o, perOsd[o], from[o]);
    }
  }

  // ------------------------------------------------------------------
  // What decryption must restore
  // ------------------------------------------------------------------

  lemma {:induction false} PlainIsRaw(e: Env, p: Piece)
    requires e.levels > 0 && Ready(e, p) && p.l.encryptInfo.NoEncryption?
    ensures RawData(e, p) == PieceData(e.w, Last(e), p)
  {
  }

  lemma {:induction false} RawIsLong(e: Env, p: Piece)
    requires e.levels > 0 && Ready(e, p) && p.l.ctr.Some?
    ensures |RawData(e, p)| == p.l.length
  {
  }

  /** Any key of the listed hash turns the stored stretch into the fragment's. */
  lemma {:induction false} DecryptedIsPlain(e: Env, p: Piece, key: seq<byte>)
    requires e.levels > 0 && Ready(e, p) && p.l.encryptInfo.Encrypted? && p.l.ctr.Some?
    requires e.sha(key) == p.l.encryptInfo.keyId
    ensures |p.l.ctr.value| == Ctr.BLOCK && Ctr.ThroughInt(p.l.length) == p.l.length
    ensures Ctr.DecryptAt(e.cipher(key), FromBigEndian(p.l.ctr.value), RawData(e, p), Ctr.ThroughInt(p.l.offset))
         == PieceData(e.w, Last(e), p)
  {
    hide Ctr.ThroughInt, Ctr.DecryptAt, Ctr.DecryptBlocks, FromBigEndian;
    Ctr.PartialIsSliceOfWhole(e.cipher(key), p.l.ctr.value, StoredOf(e, p), p.l.offset, p.l.length);
  }
}
