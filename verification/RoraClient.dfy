/** `RoraProxy_client::read_objects_slices`: the direct read with the proxy behind it. */
module RoraClient {
  import opened Sequences
  import opened Bytes
  import opened Llio
  import opened ManifestFields
  import opened ObjectBytes
  import opened ReadPath
  import opened Memory
  import opened DirectRead
  import opened ProxyRead
  import opened Routing
  import Ctr

  const SECOND: int := 1_000_000_000

  class RoraProxyClient {
    const useNullIo: bool
    var hasLocalFragmentCache: bool
    var fastPathFailures: int
    var failureTime: int                     // nanoseconds of the steady clock
    var encKeys: map<seq<byte>, seq<byte>>   // by the hash of the key

    constructor (useNullIo: bool, hasLocalFragmentCache: bool)
      ensures this.useNullIo == useNullIo && this.hasLocalFragmentCache == hasLocalFragmentCache
      ensures fastPathFailures == 0 && encKeys == map[]
    {
      this.useNullIo := useNullIo;
      this.hasLocalFragmentCache := hasLocalFragmentCache;
      fastPathFailures := 0;
      failureTime := 0;
      encKeys := map[];
    }

    // every key is filed under its own hash
    ghost predicate KeysFiled(e: Env)
      reads this`encKeys
    {
      forall id :: id in encKeys ==> e.sha(encKeys[id]) == id
    }

    /** A key that is returned has the hash that was asked for; a key of another hash is filed
        under its own, and the call fails. */
    method GetEncryptionKey(e: Env, t: nat, keyId: seq<byte>) returns (r: KeyAnswer)
      requires KeysFiled(e)
      modifies this`encKeys
      ensures KeysFiled(e)
      ensures r.Key? ==> e.sha(r.key) == keyId && keyId in encKeys && encKeys[keyId] == r.key
      ensures r.Key? <==> KeyAtHand(e, t, keyId, old(encKeys))
      ensures r.NoKey? <==> keyId !in old(encKeys) && e.keys(t).NoKey?
      ensures keyId in old(encKeys) ==> r == Key(old(encKeys)[keyId]) && encKeys == old(encKeys)
      ensures Extends(encKeys, old(encKeys))
      ensures keyId !in old(encKeys) && e.keys(t).Key? ==> e.sha(e.keys(t).key) in encKeys
      ensures forall id :: id in encKeys && id !in old(encKeys) ==> e.keys(t) == Key(encKeys[id])
    {
      if keyId in encKeys {
        return Key(encKeys[keyId]);
      }
      r := e.keys(t);
      if r.Key? {
        var keyId2 := e.sha(r.key);
        if keyId2 !in encKeys {
          encKeys := encKeys[keyId2 := r.key];
        }
        if keyId != keyId2 {
          r := KeyThrows;
        }
      }
    }

    // One piece that has arrived, in place.
    method DecryptOne(e: Env, t: nat, p: Piece, mem: array<bv8>) returns (outcome: Outcome)
      requires e.levels > 0 && KeysFiled(e) && Ready(e, p) && p.target + p.l.length <= mem.Length
      modifies this`encKeys, mem
      ensures KeysFiled(e) && OnlyRange(old(mem[..]), mem[..], p.target, p.l.length)
      ensures outcome.Returned? && Region(old(mem[..]), p.target, RawData(e, p)) ==>
                Region(mem[..], p.target, PieceData(e.w, Last(e), p))
      ensures Extends(encKeys, old(encKeys))
      ensures outcome.Returned? <==> Decryptable(e, t, p, old(encKeys))
      ensures outcome.Aborted? <==> p.l.ctr.Some? && KeyIsMissing(e, t, p, old(encKeys))
      ensures outcome.Threw? ==> DecryptThrows(e, t, p, old(encKeys))
    {
      if p.l.encryptInfo.NoEncryption? {
        PlainIsRaw(e, p);
        return Returned;
      }
      if p.l.ctr.None? {
        return Threw;
      }
      var answer := GetEncryptionKey(e, t, p.l.encryptInfo.keyId);
      if answer.NoKey? {
        return Outcome.Aborted;
      }
      if answer.KeyThrows? {
        return Threw;
      }
      outcome := DecryptWithKey(e, t, p, answer.key, mem);
    }

    static method DecryptWithKey(e: Env, t: nat, p: Piece, key: seq<byte>, mem: array<bv8>) returns (outcome: Outcome)
      requires e.levels > 0 && Ready(e, p) && p.target + p.l.length <= mem.Length
      requires p.l.encryptInfo.Encrypted? && p.l.ctr.Some? && e.sha(key) == p.l.encryptInfo.keyId
      modifies mem
      ensures OnlyRange(old(mem[..]), mem[..], p.target, p.l.length)
      ensures outcome.Returned? && Region(old(mem[..]), p.target, RawData(e, p)) ==>
                Region(mem[..], p.target, PieceData(e.w, Last(e), p))
      ensures !outcome.Aborted? && (outcome.Returned? <==> Ctr.Faultless(e.fault(t), AsInt32(p.l.offset)))
    {
      assert p.l.encryptInfo.mode.Ctr?;
      DecryptedIsPlain(e, p, key);
      hide Ready, Region, OnlyRange, RawData, PieceData, FromBigEndian;
      ghost var before := mem[..];
      var lo, len := p.target, p.l.length;
      var ok := Ctr.PartialDecrypt(p.l.encryptInfo.mode, e.cipher(key), p.l.ctr.value, AsInt32(p.l.offset), mem, lo,
                                   AsInt32(len), e.fault(t));
      FramedArray(before, mem, lo, len);
      if !ok {
        return Threw;
      }
      assert before[lo..lo + len] == old(mem[lo..lo + len]);
      assert mem[..][lo..lo + len] == mem[lo..lo + len];
      DecryptedRegion(e, p, key, before, mem[..]);
      return Returned;
    }

    /** Every piece is decrypted once; a failure on the way leaves the rest as it was. */
    method DecryptAll(e: Env, t: nat, ps: seq<Piece>, mem: array<bv8>) returns (outcome: Outcome, t': nat)
      requires e.levels > 0 && KeysFiled(e) && Workable(e, ps, mem.Length)
      modifies this`encKeys, mem
      ensures KeysFiled(e) && SameOutside(old(mem[..]), mem[..], ps)
      ensures outcome.Returned? && AllArrived(e, ps, old(mem[..])) ==> Decrypted(e, ps, |ps|, mem[..])
      ensures t <= t'
      ensures outcome.Threw? ==> SomeNotDecrypted(e, t, t', ps, old(encKeys))
      ensures outcome.Aborted? ==> SomeKeyMissing(e, t, t', ps, old(encKeys))
    {
      hide SameOutside, Decrypted, AllArrived, OnlyRange, Region, RawData, StoredRight, PieceFits, PieceData, AllApart,
        Decryptable, KeyIsMissing, DecryptThrows;
      ghost var start := mem[..];
      ghost var arrived := AllArrived(e, ps, start);
      t' := t;
      NothingDecrypted(e, ps, start);
      for i := 0 to |ps|
        invariant t <= t' && KeysFiled(e) && SameOutside(start, mem[..], ps) && Extends(encKeys, old(encKeys))
        invariant arrived ==> Decrypted(e, ps, i, mem[..])
      {
        ghost var before := mem[..];
        FewerKeys(e, t', ps[i], encKeys, old(encKeys));
        outcome := DecryptOne(e, t', ps[i], mem);
        RangeStaysOutside(start, before, mem[..], ps, i);
        t' := t' + 1;
        if !outcome.Returned? {
          return;
        }
        if arrived {
          OneMoreDecrypted(e, ps, i, before, mem[..]);
        }
      }
      outcome := Returned;
    }

    // how long ago the last failure was, in whole seconds
    function Elapsed(now: int): int
      reads this
    {
      (now - failureTime) / SECOND
    }

    // the direct part: pieces read and decrypted
    method FastPath(e: Env, t: nat, short: seq<Piece>, mem: array<bv8>) returns (outcome: Outcome, rc: int, t': nat)
      requires e.levels > 0 && KeysFiled(e) && Workable(e, short, mem.Length)
      modifies this`encKeys, mem
      ensures KeysFiled(e) && SameOutside(old(mem[..]), mem[..], short) && t <= t'
      ensures outcome.Returned? || outcome.Aborted?
      ensures outcome.Returned? && rc == 0 && !useNullIo ==> Decrypted(e, short, |short|, mem[..])
      ensures rc in {0, -1, -2}
      ensures outcome.Returned? && rc != 0 ==> PieceFailed(e, t, t', short, rc, old(encKeys))
      ensures outcome.Aborted? ==> SomeKeyMissing(e, t, t', short, old(encKeys))
    {
      Located(e, short, mem.Length);
      hide *;
      ghost var start := mem[..];
      rc, t' := ShortPath(e, t, useNullIo, short, mem);
      outcome := Returned;
      if rc == 0 {
        ghost var middle, u := mem[..], t';
        outcome, t' := DecryptAll(e, t', short, mem);
        SameOutsideTwice(start, middle, mem[..], short);
        KeyMissingEarlier(e, t, u, t', short, old(encKeys));
        if outcome.Threw? {
          NotDecryptedFails(e, t, u, t', short, old(encKeys));
          outcome, rc := Returned, -1;
        }
      } else {
        NotReadFails(e, t, t', short, rc, old(encKeys));
      }
    }

    // The direct part first; everything through the proxy if anything failed, else the rest.
    // `via` went through the proxy, at moment u.
    method ReadFast(e: Env, t: nat, later: int, objects: seq<ObjectSlices>, mem: array<bv8>)
      returns (outcome: Outcome, rc: int, t': nat, ghost via: seq<ObjectSlices>, ghost u: nat)
      requires e.levels > 0 && KeysFiled(e) && Consistent(e.w, e.levels) && OsdsRight(e)
      requires RequestsFit(e, objects) && DisjointBuffers(objects, mem.Length)
      modifies this`fastPathFailures, this`failureTime, this`encKeys, mem
      ensures KeysFiled(e) && SameUnasked(old(mem[..]), mem[..], objects)
      ensures t <= t' && (outcome.Returned? && !useNullIo ==> AllServedRight(e, objects, mem[..], t, t'))
      ensures outcome.Returned? && rc != 0 ==> FromProxy(e, objects, mem[..], t, t')
      ensures !outcome.Aborted? ==>
                && fastPathFailures == (if rc == 0 then 0 else if rc == -2 then old(fastPathFailures)
                                        else old(fastPathFailures) + 1)
                && failureTime == (if rc == 0 then old(failureTime) else later)
      ensures outcome.Aborted? ==> exists v: nat :: t <= v < t' && e.keys(v).NoKey?
      ensures !outcome.Aborted? ==> t <= u <= t' && (outcome.Returned? <==> ProxyAnswers(e, u, via))
      ensures !outcome.Aborted? && rc == 0 ==> OnlyTheRest(e, objects, via, t, t')
      ensures !outcome.Aborted? && rc != 0 ==> via == objects && DirectFailed(e, t, t', objects, rc, old(encKeys))
    {
      hide *;
      ghost var start, keys := mem[..], encKeys;
      var short, rest, now, vs, at := Route(e, t, objects);
      RoutedIsWorkable(e, objects, vs, short, mem.Length);
      ghost var routed := now;
      outcome, rc, now := FastPath(e, now, short, mem);
      t' := now;
      via, u := rest, now;
      OutsideIsUnasked(e, objects, vs, short, start, mem[..]);
      if outcome.Aborted? {
        KeyWasMissing(e, t, routed, t', short, keys);
        return;
      }
      if rc != 0 {
        DirectFails(e, t, routed, t', objects, vs, short, rc, keys);
        failureTime := later;
        if rc != -2 {
          fastPathFailures := fastPathFailures + 1;
        }
        rest := objects;
      } else {
        fastPathFailures := 0;
        ViaIsDisjoint(objects, vs, rest, at, mem.Length);
      }
      via := rest;
      ghost var middle := mem[..];
      if |rest| > 0 {
        outcome, t' := SlowPath(e, now, rest, mem);
      } else {
        NothingFilled(e, now, rest, mem[..]);
        NothingToAnswer(e, now, rest);
      }
      if rc == 0 {
        RestHasReasons(e, objects, vs, via, at, t, routed, t');
      } else {
        DirectFailedLasts(e, t, now, t', objects, rc, keys);
      }
      UnaskedTwice(objects, vs, via, at, start, middle, mem[..]);
      if outcome.Returned? {
        if rc != 0 {
          AllFromProxy(e, u, objects, mem[..], t, t');
        } else if !useNullIo {
          BothWays(e, u, objects, vs, via, at, short, middle, mem[..], t, routed, t');
        }
      }
    }

    /** Whenever the read returns with null-io off, every object's buffers hold the bytes of one
        version that the object had during the read, whatever failed on the way; no other address
        is touched.  When the direct part was skipped or failed, nothing of it is left: all of them
        hold what one proxy read found.  The failure counter decides when the direct part is
        skipped.  It returns if and only if the proxy answers for `via`, the objects it is asked
        for: all of them, for a reason, or those that cannot be read directly. */
    method ReadObjectsSlices(e: Env, t: nat, now: int, later: int, objects: seq<ObjectSlices>, consistentRead: bool,
                             mem: array<bv8>)
      returns (outcome: Outcome, slow: bool, rc: int, t': nat, ghost via: seq<ObjectSlices>, ghost u: nat)
      requires e.levels > 0 && KeysFiled(e) && Consistent(e.w, e.levels) && OsdsRight(e)
      requires RequestsFit(e, objects) && DisjointBuffers(objects, mem.Length)
      requires failureTime <= now <= later
      modifies this`fastPathFailures, this`failureTime, this`encKeys, mem
      ensures KeysFiled(e) && SameUnasked(old(mem[..]), mem[..], objects)
      ensures t <= t' && (outcome.Returned? && !useNullIo ==> AllServedRight(e, objects, mem[..], t, t'))
      ensures outcome.Returned? && (slow || rc != 0) ==> FromProxy(e, objects, mem[..], t, t')
      ensures slow <==>
                (consistentRead && hasLocalFragmentCache) || (old(fastPathFailures) > 100 && old(Elapsed(now)) <= 120)
      ensures var before := if old(fastPathFailures) > 100 && old(Elapsed(now)) > 120 then 0 else old(fastPathFailures);
              !outcome.Aborted? ==>
                && fastPathFailures == (if slow then before else if rc == 0 then 0 else if rc == -2 then before
                                        else before + 1)
                && failureTime == (if slow || rc == 0 then old(failureTime) else later)
      ensures outcome.Aborted? ==> !slow && exists v: nat :: t <= v < t' && e.keys(v).NoKey?
      ensures !outcome.Aborted? ==> t <= u <= t' && (outcome.Returned? <==> ProxyAnswers(e, u, via))
      ensures slow ==> via == objects && u == t
      ensures !outcome.Aborted? && !slow && rc == 0 ==> OnlyTheRest(e, objects, via, t, t')
      ensures !outcome.Aborted? && !slow && rc != 0 ==>
                via == objects && DirectFailed(e, t, t', objects, rc, old(encKeys))
    {
      hide ProxyAnswers, OnlyTheRest, DirectFailed;
      hide SameUnasked, AllServedRight, FromProxy, Consistent, OsdsRight, RequestsFit, DisjointBuffers;
      rc := 0;
      slow := consistentRead && hasLocalFragmentCache;
      if fastPathFailures > 100 {
        if Elapsed(now) > 120 {
          fastPathFailures := 0;
        } else {
          slow := true;
        }
      }
      if slow {
        outcome, t' := SlowPath(e, t, objects, mem);
        via, u := objects, t;
        if outcome.Returned? {
          AllFromProxy(e, t, objects, mem[..], t, t');
        }
      } else {
        outcome, rc, t', via, u := ReadFast(e, t, later, objects, mem);
      }
    }
  }

  // ------------------------------------------------------------------
  // Reasons
  // ------------------------------------------------------------------

  predicate Extends(keys: map<seq<byte>, seq<byte>>, before: map<seq<byte>, seq<byte>>) {
    forall id :: id in before ==> id in keys && keys[id] == before[id]
  }

  // the key is cached, or asked for at t and right
  predicate KeyAtHand(e: Env, t: nat, keyId: seq<byte>, keys: map<seq<byte>, seq<byte>>) {
    keyId in keys || (e.keys(t).Key? && e.sha(e.keys(t).key) == keyId)
  }

  // nothing stands in the way of decrypting the piece at t
  predicate Decryptable(e: Env, t: nat, p: Piece, keys: map<seq<byte>, seq<byte>>) {
    || p.l.encryptInfo.NoEncryption?
    || (&& p.l.ctr.Some? && KeyAtHand(e, t, p.l.encryptInfo.keyId, keys)
        && Ctr.Faultless(e.fault(t), AsInt32(p.l.offset)))
  }

  // the optional key that comes back is dereferenced although there is none
  predicate KeyIsMissing(e: Env, t: nat, p: Piece, keys: map<seq<byte>, seq<byte>>) {
    p.l.encryptInfo.Encrypted? && p.l.encryptInfo.keyId !in keys && e.keys(t).NoKey?
  }

  // no counter, a cipher error, or a key that cannot be fetched or is another one
  predicate DecryptThrows(e: Env, t: nat, p: Piece, keys: map<seq<byte>, seq<byte>>) {
    && p.l.encryptInfo.Encrypted?
    && (|| p.l.ctr.None? || !Ctr.Faultless(e.fault(t), AsInt32(p.l.offset))
        || (!KeyAtHand(e, t, p.l.encryptInfo.keyId, keys) && !e.keys(t).NoKey?))
  }

  ghost predicate SomeNotDecrypted(e: Env, t: nat, t': nat, ps: seq<Piece>, keys: map<seq<byte>, seq<byte>>) {
    exists i, u: nat :: 0 <= i < |ps| && t <= u < t' && DecryptThrows(e, u, ps[i], keys)
  }

  ghost predicate SomeKeyMissing(e: Env, t: nat, t': nat, ps: seq<Piece>, keys: map<seq<byte>, seq<byte>>) {
    exists i, u: nat :: 0 <= i < |ps| && t <= u < t' && KeyIsMissing(e, u, ps[i], keys)
  }

  // the result is that of a piece which was not read, or not decrypted
  ghost predicate PieceFailed(e: Env, t: nat, t': nat, ps: seq<Piece>, rc: int, keys: map<seq<byte>, seq<byte>>) {
    exists i, u: nat :: 0 <= i < |ps| && t <= u < t' && FailsAt(e, u, ps[i], rc, keys)
  }

  ghost predicate FailsAt(e: Env, u: nat, p: Piece, rc: int, keys: map<seq<byte>, seq<byte>>) {
    p.l.loc.0.Some? && (NotRead(e, u, p, rc) || (rc == -1 && DecryptThrows(e, u, p, keys)))
  }

  // with fewer keys no more can be decrypted
  lemma {:induction false} FewerKeys(e: Env, t: nat, p: Piece, keys: map<seq<byte>, seq<byte>>,
                                     before: map<seq<byte>, seq<byte>>)
    requires Extends(keys, before)
    ensures Decryptable(e, t, p, before) ==> Decryptable(e, t, p, keys)
    ensures KeyIsMissing(e, t, p, keys) ==> KeyIsMissing(e, t, p, before)
    ensures DecryptThrows(e, t, p, keys) ==> DecryptThrows(e, t, p, before)
  {
  }

  lemma {:induction false} NotReadFails(e: Env, t: nat, t': nat, ps: seq<Piece>, rc: int, keys: map<seq<byte>,
                                        seq<byte>>)
    requires forall i :: 0 <= i < |ps| ==> ps[i].l.loc.0.Some?
    requires SomeNotRead(e, t, t', ps, rc)
    ensures PieceFailed(e, t, t', ps, rc, keys)
  {
    hide NotRead, DecryptThrows;
    var i, u: nat :| 0 <= i < |ps| && t <= u < t' && NotRead(e, u, ps[i], rc);
    assert FailsAt(e, u, ps[i], rc, keys);
  }

  lemma {:induction false} NotDecryptedFails(e: Env, t: nat, t0: nat, t': nat, ps: seq<Piece>, keys: map<seq<byte>,
                                             seq<byte>>)
    requires forall i :: 0 <= i < |ps| ==> ps[i].l.loc.0.Some?
    requires t <= t0 && SomeNotDecrypted(e, t0, t', ps, keys)
    ensures PieceFailed(e, t, t', ps, -1, keys)
  {
    hide NotRead, DecryptThrows;
    var i, u: nat :| 0 <= i < |ps| && t0 <= u < t' && DecryptThrows(e, u, ps[i], keys);
    assert FailsAt(e, u, ps[i], -1, keys);
  }

  lemma {:induction false} KeyMissingEarlier(e: Env, t: nat, t0: nat, t': nat, ps: seq<Piece>, keys: map<seq<byte>,
                                             seq<byte>>)
    requires t <= t0
    ensures SomeKeyMissing(e, t0, t', ps, keys) ==> SomeKeyMissing(e, t, t', ps, keys)
  {
    hide KeyIsMissing;
  }

  lemma {:induction false} KeyWasMissing(e: Env, t: nat, t0: nat, t': nat, ps: seq<Piece>, keys: map<seq<byte>,
                                         seq<byte>>)
    requires t <= t0 && SomeKeyMissing(e, t0, t', ps, keys)
    ensures exists v: nat :: t <= v < t' && e.keys(v).NoKey?
  {
  }

  lemma {:induction false} NothingToAnswer(e: Env, t: nat, via: seq<ObjectSlices>)
    requires |via| == 0
    ensures ProxyAnswers(e, t, via)
  {
  }

  // `via` are objects of the request that could not be read directly, each for its reason
  ghost predicate OnlyTheRest(e: Env, objects: seq<ObjectSlices>, via: seq<ObjectSlices>, from: nat, to: nat)
    requires e.levels > 0
  {
    forall k :: 0 <= k < |via| ==> via[k] in objects && NotDirect(e, via[k], from, to)
  }

  lemma {:induction false} RestHasReasons(e: Env, objects: seq<ObjectSlices>, vs: Routes, via: seq<ObjectSlices>,
                                          at: seq<nat>, from: nat, to: nat, to': nat)
    requires e.levels > 0 && |vs| == |objects| && ViaOf(objects, vs, via, at) && HaveReasons(e, objects, vs, from, to)
    requires to <= to'
    ensures OnlyTheRest(e, objects, via, from, to')
  {
    hide NotDirect;
    forall k | 0 <= k < |via|
      ensures via[k] in objects && NotDirect(e, via[k], from, to')
    {
      assert via[k] == objects[at[k]];
      NotDirectLasts(e, objects[at[k]], from, to, to');
    }
  }

  // a piece of the request that a manifest lists for the fast path failed, with this result
  ghost predicate DirectFailed(e: Env, t: nat, t': nat, objects: seq<ObjectSlices>, rc: int, keys: map<seq<byte>,
                               seq<byte>>)
    requires e.levels > 0
  {
    exists p: Piece, u: nat :: t <= u < t' && OnFastPath(p) && Asked(objects, p.target) && FailsAt(e, u, p, rc, keys)
  }

  lemma {:induction false} DirectFailedLasts(e: Env, t: nat, t0: nat, t': nat, objects: seq<ObjectSlices>, rc: int,
                                             keys: map<seq<byte>, seq<byte>>)
    requires e.levels > 0 && DirectFailed(e, t, t0, objects, rc, keys) && t0 <= t'
    ensures DirectFailed(e, t, t', objects, rc, keys)
  {
    hide FailsAt, OnFastPath, Asked;
  }

  lemma {:induction false} DirectFails(e: Env, t: nat, t0: nat, t': nat, objects: seq<ObjectSlices>, vs: Routes,
                                       ps: seq<Piece>,
                                       rc: int, keys: map<seq<byte>, seq<byte>>)
    requires e.levels > 0 && |vs| == |objects| && RoutesInside(objects, vs) && AllReady(e, ps) && t <= t0
    requires Delivered(e.w, Last(e), ps) == ShortWanted(objects, vs) && PieceFailed(e, t0, t', ps, rc, keys)
    ensures DirectFailed(e, t, t', objects, rc, keys)
  {
    var i, u: nat :| 0 <= i < |ps| && t0 <= u < t' && FailsAt(e, u, ps[i], rc, keys);
    assert Ready(e, ps[i]) && AllFit(e.w, Last(e), ps);
    assert PieceFits(e.w, Last(e), ps[i]);
    assert Covers(ps[i], ps[i].target);
    hide FailsAt, Ready, Delivered, ShortWanted, RoutesInside;
    CoveredIsAsked(e, objects, vs, ps, ps[i].target);
  }

  lemma {:induction false} SameOutsideTwice(a: seq<bv8>, b: seq<bv8>, c: seq<bv8>, ps: seq<Piece>)
    requires SameOutside(a, b, ps) && SameOutside(b, c, ps)
    ensures SameOutside(a, c, ps)
  {
  }

  // the buffers hold one version that the object had from `from` on and before `to`
  ghost predicate ServedRight(e: Env, os: ObjectSlices, mem: seq<bv8>, from: nat, to: nat) {
    exists v :: Version(e, os.name, v, from, to) && HoldsObject(mem, os, v)
  }

  ghost predicate AllServedRight(e: Env, objects: seq<ObjectSlices>, mem: seq<bv8>, from: nat, to: nat) {
    forall i :: 0 <= i < |objects| ==> ServedRight(e, objects[i], mem, from, to)
  }

  // every buffer was written by one and the same proxy read, made in that time
  ghost predicate FromProxy(e: Env, objects: seq<ObjectSlices>, mem: seq<bv8>, from: nat, to: nat) {
    objects == [] || exists t: nat :: from <= t < to && Filled(e, t, objects, |objects|, mem)
  }

  lemma {:induction false} ProxyVersion(e: Env, name: seq<byte>, t: nat, from: nat, to: nat)
    requires from <= t < to
    ensures Version(e, name, e.object_(t, name), from, to)
  {
    assert VersionAt(e, name, e.object_(t, name), t);
  }

  lemma {:induction false} AllFromProxy(e: Env, t: nat, objects: seq<ObjectSlices>, mem: seq<bv8>, from: nat, to: nat)
    requires Filled(e, t, objects, |objects|, mem) && from <= t <= to && (objects != [] ==> t < to)
    ensures AllServedRight(e, objects, mem, from, to) && FromProxy(e, objects, mem, from, to)
  {
    forall i | 0 <= i < |objects|
      ensures ServedRight(e, objects[i], mem, from, to)
    {
      ProxyVersion(e, objects[i].name, t, from, to);
    }
  }

  lemma {:induction false} OutsideIsUnasked(e: Env, objects: seq<ObjectSlices>, vs: Routes, ps: seq<Piece>,
                                            before: seq<bv8>, after: seq<bv8>)
    requires e.levels > 0 && |vs| == |objects| && RoutesInside(objects, vs) && AllReady(e, ps)
    requires Delivered(e.w, Last(e), ps) == ShortWanted(objects, vs) && SameOutside(before, after, ps)
    ensures SameUnasked(before, after, objects)
  {
    assert AllFit(e.w, Last(e), ps);
    forall a | 0 <= a < |before| && !Asked(objects, a)
      ensures after[a] == before[a]
    {
      if CoveredBy(ps, a) {
        CoveredIsAsked(e, objects, vs, ps, a);
      }
    }
  }

  lemma {:induction false} ViaIsDisjoint(objects: seq<ObjectSlices>, vs: Routes, via: seq<ObjectSlices>,
                                         at: seq<nat>, size: nat)
    requires |vs| == |objects| && ViaOf(objects, vs, via, at) && DisjointBuffers(objects, size)
    ensures DisjointBuffers(via, size)
  {
    forall i, j, a: nat | 0 <= i < j < |via|
      ensures !(Asks(via[i], a) && Asks(via[j], a))
    {
      assert at[i] < at[j] && via[i] == objects[at[i]] && via[j] == objects[at[j]];
    }
  }

  lemma {:induction false} UnaskedTwice(objects: seq<ObjectSlices>, vs: Routes, via: seq<ObjectSlices>, at: seq<nat>,
                                        a: seq<bv8>, b: seq<bv8>, c: seq<bv8>)
    requires SameUnasked(a, b, objects) && SameUnasked(b, c, via) && |vs| == |objects|
    requires via == objects || ViaOf(objects, vs, via, at)
    ensures SameUnasked(a, c, objects)
  {
    forall x | 0 <= x < |a| && !Asked(objects, x)
      ensures c[x] == a[x]
    {
      forall i | 0 <= i < |via|
        ensures !Asks(via[i], x)
      {
        if via != objects {
          assert via[i] == objects[at[i]];
        }
      }
    }
  }

  /** The directly read objects keep what they hold while the proxy fills the others. */
  lemma {:induction false} BothWays(e: Env, t: nat, objects: seq<ObjectSlices>, vs: Routes, via: seq<ObjectSlices>,
                                    at: seq<nat>, ps: seq<Piece>, before: seq<bv8>, after: seq<bv8>,
                                    from: nat, routed: nat, to: nat)
    requires e.levels > 0 && |vs| == |objects| && Versions(e, objects, vs, from, routed) && RoutesInside(objects, vs)
             && ViaOf(objects, vs, via, at)
    requires from <= routed <= t <= to && (via != [] ==> t < to)
    requires AllReady(e, ps) && Delivered(e.w, Last(e), ps) == ShortWanted(objects, vs)
    requires DisjointBuffers(objects, |before|) && Decrypted(e, ps, |ps|, before)
    requires SameUnasked(before, after, via) && Filled(e, t, via, |via|, after)
    ensures AllServedRight(e, objects, after, from, to)
  {
    RegionsHold(e.w, Last(e), ps, before);
    ShortHolds(objects, vs, before);
    hide Delivered, ShortWanted, Filled, Version, Wanted, DisjointBuffers, ViaOf, SameUnasked, Decrypted, AllReady,
      HoldsObject;
    forall i | 0 <= i < |objects|
      ensures ServedRight(e, objects[i], after, from, to)
    {
      if vs[i].Some? {
        VersionLasts(e, objects[i].name, vs[i].value, from, routed, from, to);
        HoldsItsSlices(before, objects[i], vs[i].value);
        ShortUnasked(objects, vs, via, at, |before|, i);
        ObjectKept(before, after, via, objects[i], vs[i].value);
      } else {
        FilledVia(e, t, objects, vs, via, at, after, i);
        ProxyVersion(e, objects[i].name, t, from, to);
      }
    }
  }

  lemma {:induction false} HoldsItsSlices(mem: seq<bv8>, os: ObjectSlices, v: seq<bv8>)
    requires Inside(v, os.slices) && Holds(mem, Wanted(v, os.slices))
    ensures HoldsObject(mem, os, v)
  {
  }

  lemma {:induction false} FilledVia(e: Env, t: nat, objects: seq<ObjectSlices>, vs: Routes, via: seq<ObjectSlices>,
                                     at: seq<nat>, mem: seq<bv8>, i: nat)
    requires |vs| == |objects| && ViaOf(objects, vs, via, at) && Filled(e, t, via, |via|, mem) && i < |objects|
             && vs[i].None?
    ensures via != [] && HoldsObject(mem, objects[i], e.object_(t, objects[i].name))
  {
    var k :| 0 <= k < |at| && at[k] == i;
    assert via[k] == objects[i];
  }

  lemma {:induction false} ShortUnasked(objects: seq<ObjectSlices>, vs: Routes, via: seq<ObjectSlices>, at: seq<nat>,
                                        size: nat, i: nat)
    requires |vs| == |objects| && ViaOf(objects, vs, via, at) && DisjointBuffers(objects, size) && i < |vs|
             && vs[i].Some?
    ensures forall a: nat :: Asks(objects[i], a) ==> !Asked(via, a)
  {
    forall a: nat, k | Asks(objects[i], a) && 0 <= k < |via|
      ensures !Asks(via[k], a)
    {
      assert via[k] == objects[at[k]] && at[k] != i;
    }
  }

  // the first n pieces are plain, the others as they arrived
  ghost predicate Decrypted(e: Env, ps: seq<Piece>, n: nat, mem: seq<bv8>)
    requires e.levels > 0 && AllReady(e, ps)
  {
    && (forall i :: 0 <= i < |ps| && i < n ==> Region(mem, ps[i].target, PieceData(e.w, Last(e), ps[i])))
    && (forall i :: n <= i < |ps| ==> Region(mem, ps[i].target, RawData(e, ps[i])))
  }

  lemma {:induction false} NothingDecrypted(e: Env, ps: seq<Piece>, mem: seq<bv8>)
    requires e.levels > 0 && AllReady(e, ps)
    ensures AllArrived(e, ps, mem) ==> Decrypted(e, ps, 0, mem)
    ensures SameOutside(mem, mem, ps)
  {
  }

  lemma {:induction false} PlainShort(e: Env, p: Piece)
    requires e.levels > 0
    ensures |PieceData(e.w, Last(e), p)| <= p.l.length
  {
  }

  // Work on one piece leaves what another piece's target holds.
  lemma {:induction false} OtherPieceKept(ps: seq<Piece>, i: nat, j: nat, before: seq<bv8>, after: seq<bv8>,
                                          data: seq<bv8>)
    requires AllApart(ps) && i < |ps| && j < |ps| && i != j && |data| <= ps[j].l.length
    requires OnlyRange(before, after, ps[i].target, ps[i].l.length) && Region(before, ps[j].target, data)
    ensures Region(after, ps[j].target, data)
  {
    hide OnlyRange, Region;
    ApartEitherWay(ps, i, j);
    RangeKeepsRegion(before, after, ps[i].target, ps[i].l.length, ps[j].target, data);
  }

  lemma {:induction false} DecryptedParts(e: Env, ps: seq<Piece>, n: nat, mem: seq<bv8>, i: nat)
    requires e.levels > 0 && AllReady(e, ps) && Decrypted(e, ps, n, mem) && i < |ps|
    ensures i < n ==> Region(mem, ps[i].target, PieceData(e.w, Last(e), ps[i]))
    ensures n <= i ==> Region(mem, ps[i].target, RawData(e, ps[i]))
  {
  }

  lemma {:induction false} OneMoreDecrypted(e: Env, ps: seq<Piece>, n: nat, before: seq<bv8>, after: seq<bv8>)
    requires e.levels > 0 && AllReady(e, ps) && AllApart(ps) && n < |ps| && Decrypted(e, ps, n, before)
    requires OnlyRange(before, after, ps[n].target, ps[n].l.length)
    requires Region(before, ps[n].target, RawData(e, ps[n]))
             ==> Region(after, ps[n].target, PieceData(e.w, Last(e), ps[n]))
    ensures Decrypted(e, ps, n + 1, after)
  {
    forall i | 0 <= i < |ps|
      ensures i < n + 1 ==> Region(after, ps[i].target, PieceData(e.w, Last(e), ps[i]))
      ensures n + 1 <= i ==> Region(after, ps[i].target, RawData(e, ps[i]))
    {
      hide AllApart, OnlyRange, Region, RawData, PieceData, Decrypted;
      DecryptedParts(e, ps, n, before, i);
      if i < n {
        PlainShort(e, ps[i]);
        OtherPieceKept(ps, n, i, before, after, PieceData(e.w, Last(e), ps[i]));
      } else if i > n {
        RawShort(e, ps[i]);
        OtherPieceKept(ps, n, i, before, after, RawData(e, ps[i]));
      }
    }
  }

  lemma {:induction false} DecryptedRegion(e: Env, p: Piece, key: seq<byte>, before: seq<bv8>, after: seq<bv8>)
    requires e.levels > 0 && Ready(e, p) && p.l.encryptInfo.Encrypted? && p.l.ctr.Some?
    requires e.sha(key) == p.l.encryptInfo.keyId
    requires |after| == |before| && p.target + p.l.length <= |before|
    requires after[p.target..p.target + p.l.length]
          == Ctr.DecryptAt(e.cipher(key), FromBigEndian(p.l.ctr.value), before[p.target..p.target + p.l.length],
                           Ctr.ThroughInt(p.l.offset))
    ensures Region(before, p.target, RawData(e, p)) ==> Region(after, p.target, PieceData(e.w, Last(e), p))
  {
    hide Ready, FromBigEndian, RawData, PieceData;
    DecryptedIsPlain(e, p, key);
    RawIsLong(e, p);
  }

  lemma {:induction false} FramedArray(before: seq<bv8>, mem: array<bv8>, lo: nat, len: nat)
    requires |before| == mem.Length && lo + len <= |before|
    requires mem[..lo] == before[..lo] && mem[lo + len..] == before[lo + len..]
    ensures OnlyRange(before, mem[..], lo, len)
  {
    assert mem[..][..lo] == mem[..lo] && mem[..][lo + len..] == mem[lo + len..];
    FramedRange(before, mem[..], lo, len);
  }

  lemma {:induction false} FramedRange(before: seq<bv8>, after: seq<bv8>, lo: nat, len: nat)
    requires |before| == |after| && lo + len <= |before|
    requires after[..lo] == before[..lo] && after[lo + len..] == before[lo + len..]
    ensures OnlyRange(before, after, lo, len)
  {
    forall a | 0 <= a < |before| && !(lo <= a < lo + len)
      ensures after[a] == before[a]
    {
      if a < lo {
        assert after[a] == after[..lo][a];
      } else {
        assert after[a] == after[lo + len..][a - (lo + len)];
      }
    }
  }
}
