/** The names under which fragments are stored: on an OSD, and in a fragment cache. */
module FragmentKeys {
  import opened Sequences
  import opened Bytes
  import opened Llio
  import opened LlioBuffers

  // a fragment in the namespace namespaceId: all numbers are unsigned machine words
  datatype FragmentId = FragmentId(namespaceId: nat, objectId: seq<byte>, versionId: nat, chunkId: nat, fragmentId: nat)

  predicate Words(f: FragmentId) {
    f.namespaceId < TWO64 && f.versionId < TWO32 && f.chunkId < TWO32 && f.fragmentId < TWO32
  }

  // 4 bytes, or 12 when the id does not fit an int32; highest byte first
  function NamespaceTo(i: nat): seq<byte> {
    if i < MAX_INT32 then Be32To(i) else Be32To(MAX_INT32) + Be64To(i)
  }

  function CacheName(objectId: seq<byte>, chunkId: nat, fragmentId: nat): seq<byte> {
    StringTo(objectId) + (LittleEndian(chunkId, 4) + LittleEndian(fragmentId, 4))
  }

  const P: byte := 0x70
  const N: byte := 0x6E
  const O: byte := 0x6F

  function FragmentKey(f: FragmentId): seq<byte> {
    ([P] + LittleEndian(0, 4) + [N])
    + (NamespaceTo(f.namespaceId)
       + ([O] + (CacheName(f.objectId, f.chunkId, f.fragmentId) + LittleEndian(f.versionId, 4))))
  }

  // the part of the object id that its 32-bit length covers
  function Stored(s: seq<byte>): seq<byte> { s[..|s| % TWO32] }

  lemma {:induction false} StoredWhole(s: seq<byte>)
    requires |s| < TWO32
    ensures Stored(s) == s
  {
    assert s[..|s|] == s;
  }

  lemma {:induction false} SplitEqual(a: seq<byte>, b: seq<byte>, c: seq<byte>, d: seq<byte>)
    requires a + b == c + d && |a| == |c|
    ensures a == c && b == d
  {
    assert (a + b)[..|a|] == a && (c + d)[..|c|] == c;
    assert (a + b)[|a|..] == b && (c + d)[|c|..] == d;
  }

  lemma {:induction false} WordInjective(v: nat, w: nat)
    requires v < TWO32 && w < TWO32 && LittleEndian(v, 4) == LittleEndian(w, 4)
    ensures v == w
  {
    Widths();
    LittleEndianRoundTrip(v, 4);
    LittleEndianRoundTrip(w, 4);
  }

  lemma {:induction false} Be32Injective(v: nat, w: nat)
    requires v < TWO32 && w < TWO32 && Be32To(v) == Be32To(w)
    ensures v == w
  {
    Widths();
    Swap32IsBigEndian(v);
    Swap32IsBigEndian(w);
    BigEndianRoundTrip(v, 4);
    BigEndianRoundTrip(w, 4);
  }

  lemma {:induction false} Be64Injective(v: nat, w: nat)
    requires v < TWO64 && w < TWO64 && Be64To(v) == Be64To(w)
    ensures v == w
  {
    Widths();
    Swap64IsBigEndian(v);
    Swap64IsBigEndian(w);
    BigEndianRoundTrip(v, 8);
    BigEndianRoundTrip(w, 8);
  }

  // the first four bytes of a namespace id, and the rest
  function NamespaceHead(i: nat): seq<byte> { Be32To(if i < MAX_INT32 then i else MAX_INT32) }
  function NamespaceTail(i: nat): seq<byte> { if i < MAX_INT32 then [] else Be64To(i) }

  lemma {:induction false} NamespaceParts(i: nat, rest: seq<byte>)
    ensures NamespaceTo(i) + rest == NamespaceHead(i) + (NamespaceTail(i) + rest)
  {
    Regroup(NamespaceHead(i), NamespaceTail(i), rest);
    AppendNothing(NamespaceHead(i));
  }

  /** Namespace ids are prefix-free: whatever follows, equal bytes mean equal ids. */
  lemma {:induction false} NamespacePrefixFree(i: nat, a: seq<byte>, j: nat, b: seq<byte>)
    requires i < TWO64 && j < TWO64 && NamespaceTo(i) + a == NamespaceTo(j) + b
    ensures i == j && a == b
  {
    NamespaceParts(i, a);
    NamespaceParts(j, b);
    SplitEqual(NamespaceHead(i), NamespaceTail(i) + a, NamespaceHead(j), NamespaceTail(j) + b);
    Be32Injective(if i < MAX_INT32 then i else MAX_INT32, if j < MAX_INT32 then j else MAX_INT32);
    SplitEqual(NamespaceTail(i), a, NamespaceTail(j), b);
    if i >= MAX_INT32 {
      Be64Injective(i, j);
    }
  }

  // Strings are prefix-free too.
  lemma {:induction false} StringPrefixFree(s: seq<byte>, a: seq<byte>, t: seq<byte>, b: seq<byte>)
    requires StringTo(s) + a == StringTo(t) + b
    ensures Stored(s) == Stored(t) && a == b
  {
    var n, m := |s| % TWO32, |t| % TWO32;
    Regroup(LittleEndian(n, 4), Stored(s), a);
    Regroup(LittleEndian(m, 4), Stored(t), b);
    SplitEqual(LittleEndian(n, 4), Stored(s) + a, LittleEndian(m, 4), Stored(t) + b);
    WordInjective(n, m);
    SplitEqual(Stored(s), a, Stored(t), b);
  }

  lemma {:induction false} CacheNamePrefixFree(o1: seq<byte>, c1: nat, f1: nat, a: seq<byte>, o2: seq<byte>, c2: nat,
                                               f2: nat, b: seq<byte>)
    requires c1 < TWO32 && f1 < TWO32 && c2 < TWO32 && f2 < TWO32
    requires CacheName(o1, c1, f1) + a == CacheName(o2, c2, f2) + b
    ensures Stored(o1) == Stored(o2) && c1 == c2 && f1 == f2 && a == b
  {
    var w1, w2 := LittleEndian(c1, 4) + LittleEndian(f1, 4), LittleEndian(c2, 4) + LittleEndian(f2, 4);
    Regroup(StringTo(o1), w1, a);
    Regroup(StringTo(o2), w2, b);
    StringPrefixFree(o1, w1 + a, o2, w2 + b);
    SplitEqual(w1, a, w2, b);
    SplitEqual(LittleEndian(c1, 4), LittleEndian(f1, 4), LittleEndian(c2, 4), LittleEndian(f2, 4));
    WordInjective(c1, c2);
    WordInjective(f1, f2);
  }

  lemma {:induction false} CacheNameReads(o: seq<byte>, p: seq<byte>)
    requires Stored(o) == Stored(p)
    ensures StringTo(o) == StringTo(p)
  {
    assert |Stored(o)| == |o| % TWO32 && |Stored(p)| == |p| % TWO32;
  }

  /** Two fragment-cache names are equal exactly when they name the same fragment of the
      same object, an object id counting by the bytes its 32-bit length covers. */
  lemma {:induction false} CacheNameInjective(o1: seq<byte>, c1: nat, f1: nat, o2: seq<byte>, c2: nat, f2: nat)
    requires c1 < TWO32 && f1 < TWO32 && c2 < TWO32 && f2 < TWO32
    ensures CacheName(o1, c1, f1) == CacheName(o2, c2, f2) <==> Stored(o1) == Stored(o2) && c1 == c2 && f1 == f2
  {
    var n1, n2 := CacheName(o1, c1, f1), CacheName(o2, c2, f2);
    if n1 == n2 {
      CacheNamePrefixFree(o1, c1, f1, [], o2, c2, f2, []);
    }
    if Stored(o1) == Stored(o2) {
      CacheNameReads(o1, o2);
    }
  }

  function Rest(f: FragmentId): seq<byte> {
    CacheName(f.objectId, f.chunkId, f.fragmentId) + LittleEndian(f.versionId, 4)
  }

  /** Two fragment keys are equal exactly when all five parts are, an object id counting by
      the bytes its 32-bit length covers. */
  lemma {:induction false} FragmentKeyInjective(f: FragmentId, g: FragmentId)
    requires Words(f) && Words(g)
    ensures FragmentKey(f) == FragmentKey(g)
       <==> f.namespaceId == g.namespaceId && Stored(f.objectId) == Stored(g.objectId)
            && f.versionId == g.versionId && f.chunkId == g.chunkId && f.fragmentId == g.fragmentId
  {
    if FragmentKey(f) == FragmentKey(g) {
      var head := [P] + LittleEndian(0, 4) + [N];
      SplitEqual(head, NamespaceTo(f.namespaceId) + ([O] + Rest(f)), head,
                 NamespaceTo(g.namespaceId) + ([O] + Rest(g)));
      NamespacePrefixFree(f.namespaceId, [O] + Rest(f), g.namespaceId, [O] + Rest(g));
      SplitEqual([O], Rest(f), [O], Rest(g));
      CacheNamePrefixFree(f.objectId, f.chunkId, f.fragmentId, LittleEndian(f.versionId, 4),
                          g.objectId, g.chunkId, g.fragmentId, LittleEndian(g.versionId, 4));
      WordInjective(f.versionId, g.versionId);
    }
    if Stored(f.objectId) == Stored(g.objectId) {
      CacheNameReads(f.objectId, g.objectId);
    }
  }

  /** With object ids shorter than 2^32 bytes nothing is lost at all. */
  lemma {:induction false} FragmentKeyDetermines(f: FragmentId, g: FragmentId)
    requires Words(f) && Words(g) && |f.objectId| < TWO32 && |g.objectId| < TWO32
    ensures FragmentKey(f) == FragmentKey(g) <==> f == g
  {
    hide FragmentKey, Words, Stored;
    FragmentKeyInjective(f, g);
    StoredWhole(f.objectId);
    StoredWhole(g.objectId);
  }

  // ------------------------------------------------------------------
  // Where each part stands
  // ------------------------------------------------------------------

  // the word in four bytes, lowest first
  predicate WordAt(bs: seq<byte>, pos: nat, v: nat) {
    pos + 4 <= |bs| && FromLittleEndian(bs[pos..pos + 4]) == v
  }

  // the length in four bytes, lowest first, and the bytes it covers
  predicate StringAt(bs: seq<byte>, pos: nat, s: seq<byte>) {
    var n := |s| % 0x1_0000_0000;
    WordAt(bs, pos, n) && pos + 4 + n <= |bs| && bs[pos + 4..pos + 4 + n] == s[..n]
  }

  // highest byte first: four bytes, or the largest int32 and eight more
  predicate NamespaceAt(bs: seq<byte>, pos: nat, i: nat) {
    if i < 0x7FFF_FFFF then pos + 4 <= |bs| && FromBigEndian(bs[pos..pos + 4]) == i
    else pos + 12 <= |bs| && bs[pos..pos + 4] == [0x7F, 0xFF, 0xFF, 0xFF] && FromBigEndian(bs[pos + 4..pos + 12]) == i
  }

  // the object id, then the chunk, then the fragment
  predicate CacheNameAt(bs: seq<byte>, pos: nat, objectId: seq<byte>, chunkId: nat, fragmentId: nat) {
    var e := pos + 4 + |objectId| % 0x1_0000_0000;
    StringAt(bs, pos, objectId) && WordAt(bs, e, chunkId) && WordAt(bs, e + 4, fragmentId)
  }

  // 'p', the zero word, 'n', the namespace, 'o', the object id, the chunk, the fragment, and the version last
  predicate KeyLayout(f: FragmentId, key: seq<byte>) {
    var o := if f.namespaceId < 0x7FFF_FFFF then 10 else 18;
    var e := o + 13 + |f.objectId| % 0x1_0000_0000;
    && |key| == e + 4
    && key[..6] == [0x70, 0, 0, 0, 0, 0x6E] && NamespaceAt(key, 6, f.namespaceId) && key[o] == 0x6F
    && CacheNameAt(key, o + 1, f.objectId, f.chunkId, f.fragmentId) && WordAt(key, e, f.versionId)
  }

  lemma {:induction false} WordStands(bs: seq<byte>, pos: nat, v: nat)
    requires v < TWO32 && At(bs, pos, LittleEndian(v, 4))
    ensures WordAt(bs, pos, v)
  {
    Widths();
    LittleEndianRoundTrip(v, 4);
  }

  lemma {:induction false} StringStands(bs: seq<byte>, pos: nat, s: seq<byte>)
    requires At(bs, pos, StringTo(s))
    ensures StringAt(bs, pos, s)
  {
    var n := |s| % TWO32;
    AtConcat(bs, pos, LittleEndian(n, 4), s[..n]);
    WordStands(bs, pos, n);
  }

  lemma {:induction false} LargestInt32()
    ensures Be32To(MAX_INT32) == [0x7F, 0xFF, 0xFF, 0xFF]
  {
    Widths();
    Swap32IsBigEndian(MAX_INT32);
    assert BigEndian(MAX_INT32, 4) == BigEndian(0x7F, 1) + [0xFF] + [0xFF] + [0xFF];
  }

  lemma {:induction false} NamespaceStands(bs: seq<byte>, pos: nat, i: nat)
    requires i < TWO64 && At(bs, pos, NamespaceTo(i))
    ensures NamespaceAt(bs, pos, i)
  {
    Widths();
    if i < MAX_INT32 {
      Swap32IsBigEndian(i);
      BigEndianRoundTrip(i, 4);
    } else {
      AtConcat(bs, pos, Be32To(MAX_INT32), Be64To(i));
      LargestInt32();
      Swap64IsBigEndian(i);
      BigEndianRoundTrip(i, 8);
    }
  }

  lemma {:induction false} CacheNameStands(bs: seq<byte>, pos: nat, objectId: seq<byte>, chunkId: nat, fragmentId: nat)
    requires chunkId < TWO32 && fragmentId < TWO32 && At(bs, pos, CacheName(objectId, chunkId, fragmentId))
    ensures CacheNameAt(bs, pos, objectId, chunkId, fragmentId)
  {
    var o, c, f := StringTo(objectId), LittleEndian(chunkId, 4), LittleEndian(fragmentId, 4);
    assert |o| == 4 + |objectId| % TWO32;
    hide At, StringTo, LittleEndian, WordAt, StringAt;
    AtConcat(bs, pos, o, c + f);
    AtConcat(bs, pos + |o|, c, f);
    StringStands(bs, pos, objectId);
    WordStands(bs, pos + |o|, chunkId);
    WordStands(bs, pos + |o| + 4, fragmentId);
  }

  /** The name of a fragment in a fragment cache, byte by byte. */
  lemma {:induction false} CacheNameLayout(objectId: seq<byte>, chunkId: nat, fragmentId: nat)
    requires chunkId < TWO32 && fragmentId < TWO32
    ensures var name := CacheName(objectId, chunkId, fragmentId);
            |name| == 12 + |objectId| % TWO32 && CacheNameAt(name, 0, objectId, chunkId, fragmentId)
  {
    var name := CacheName(objectId, chunkId, fragmentId);
    assert name[0..|name|] == name;
    CacheNameStands(name, 0, objectId, chunkId, fragmentId);
  }

  lemma {:induction false} ZeroWord()
    ensures LittleEndian(0, 4) == [0, 0, 0, 0]
  {
    assert LittleEndian(0, 4) == [0] + ([0] + LittleEndian(0, 2));
  }

  lemma {:induction false} TailStands(bs: seq<byte>, pos: nat, f: FragmentId)
    requires Words(f) && At(bs, pos, [O] + Rest(f))
    ensures bs[pos] == 0x6F && CacheNameAt(bs, pos + 1, f.objectId, f.chunkId, f.fragmentId)
    ensures WordAt(bs, pos + 13 + |f.objectId| % TWO32, f.versionId)
    ensures |Rest(f)| == 16 + |f.objectId| % TWO32
  {
    var name, v := CacheName(f.objectId, f.chunkId, f.fragmentId), LittleEndian(f.versionId, 4);
    assert |name| == 12 + |f.objectId| % TWO32;
    assert bs[pos] == bs[pos..pos + 1 + |Rest(f)|][0] == O;
    hide CacheName, LittleEndian, WordAt, CacheNameAt;
    AtConcat(bs, pos, [O], name + v);
    AtConcat(bs, pos + 1, name, v);
    CacheNameStands(bs, pos + 1, f.objectId, f.chunkId, f.fragmentId);
    WordStands(bs, pos + 13 + |f.objectId| % TWO32, f.versionId);
  }

  /** The key of a fragment, byte by byte. */
  lemma {:induction false} FragmentKeyLayout(f: FragmentId)
    requires Words(f)
    ensures KeyLayout(f, FragmentKey(f))
  {
    var key, ns := FragmentKey(f), NamespaceTo(f.namespaceId);
    var head := [P] + LittleEndian(0, 4) + [N];
    ZeroWord();
    var o := 6 + |ns|;
    assert o == if f.namespaceId < 0x7FFF_FFFF then 10 else 18;
    assert key == head + (ns + ([O] + Rest(f)));
    hide *;
    PartsStand(key, head, ns, [O] + Rest(f));
    NamespaceStands(key, 6, f.namespaceId);
    TailStands(key, o, f);
    ShowKeyLayout(f, key, o);
  }

  lemma {:induction false} PartsStand(key: seq<byte>, a: seq<byte>, b: seq<byte>, c: seq<byte>)
    requires key == a + (b + c)
    ensures key[..|a|] == a && At(key, |a|, b) && At(key, |a| + |b|, c) && |key| == |a| + |b| + |c|
  {
    assert key[0..|key|] == key;
    AtConcat(key, 0, a, b + c);
    AtConcat(key, |a|, b, c);
  }

  lemma {:induction false} ShowKeyLayout(f: FragmentId, key: seq<byte>, o: nat)
    requires o == (if f.namespaceId < 0x7FFF_FFFF then 10 else 18)
    requires |key| == o + 17 + |f.objectId| % TWO32
    requires key[..6] == [0x70, 0, 0, 0, 0, 0x6E] && NamespaceAt(key, 6, f.namespaceId) && key[o] == 0x6F
    requires CacheNameAt(key, o + 1, f.objectId, f.chunkId, f.fragmentId)
    requires WordAt(key, o + 13 + |f.objectId| % TWO32, f.versionId)
    ensures KeyLayout(f, key)
  {
    hide NamespaceAt, CacheNameAt, WordAt;
  }

  // Three pieces in a row.
  method AddThree(fkb: MessageBuilder, a: seq<byte>, b: seq<byte>, c: seq<byte>)
    requires fkb.Valid() && fkb.pos + |a| + |b| + |c| <= TWO31
    modifies fkb, fkb.buffer
    ensures fkb.Valid() && (fkb.buffer == old(fkb.buffer) || fresh(fkb.buffer))
    ensures fkb.Contents() == old(fkb.Contents()) + (a + b + c)
  {
    fkb.AddRaw(a);
    fkb.AddRaw(b);
    fkb.AddRaw(c);
    Reassociate(old(fkb.Contents()), a, b, c);
  }

  lemma {:induction false} Reassociate(x: seq<byte>, a: seq<byte>, b: seq<byte>, c: seq<byte>)
    ensures x + a + b + c == x + (a + b + c) == x + (a + (b + c))
  {
  }

  lemma {:induction false} KeyInThrees(p: seq<byte>, ns: seq<byte>, s: seq<byte>, c: seq<byte>, f: seq<byte>,
                                       v: seq<byte>)
    ensures p + (ns + [O] + s) + (c + f + v) == p + (ns + ([O] + ((s + (c + f)) + v)))
  {
  }

  method AddNine(fkb: MessageBuilder, p: seq<byte>, zero: seq<byte>, n: seq<byte>, ns: seq<byte>, s: seq<byte>,
                 c: seq<byte>, g: seq<byte>, v: seq<byte>) returns (key: seq<byte>)
    requires fkb.Valid() && fkb.pos == 4
    requires 4 + |p + zero + n| + |ns + [O] + s| + |c + g + v| <= TWO31
    modifies fkb, fkb.buffer
    ensures fkb.Valid() && fkb.pos == 4 && (fkb.buffer == old(fkb.buffer) || fresh(fkb.buffer))
    ensures key == (p + zero + n) + (ns + ([O] + ((s + (c + g)) + v)))
  {
    AddThree(fkb, p, zero, n);
    AddThree(fkb, ns, [O], s);
    AddThree(fkb, c, g, v);
    key := fkb.buffer[4..fkb.pos];
    KeyInThrees(p + zero + n, ns, s, c, g, v);
    fkb.Reset();
  }

  /** The shared key builder: starts empty, gives the key, and is empty again. */
  method BuildFragmentKey(fkb: MessageBuilder, f: FragmentId) returns (key: seq<byte>)
    requires fkb.Valid() && fkb.pos == 4 && Words(f) && 4 + |FragmentKey(f)| <= TWO31
    modifies fkb, fkb.buffer
    ensures fkb.Valid() && fkb.pos == 4 && (fkb.buffer == old(fkb.buffer) || fresh(fkb.buffer))
    ensures key == FragmentKey(f) && KeyLayout(f, key)
  {
    FragmentKeyLayout(f);
    key := AddNine(fkb, [P], LittleEndian(0, 4), [N], NamespaceTo(f.namespaceId), StringTo(f.objectId),
                   LittleEndian(f.chunkId, 4), LittleEndian(f.fragmentId, 4), LittleEndian(f.versionId, 4));
  }
}
