/** The buffers behind the wire encoding: a builder that grows, and a cursor that moves. */
module LlioBuffers {
  import opened Bytes
  import opened Llio

  function Max(a: nat, b: nat): nat { if a < b then b else a }

  class MessageBuilder {
    // the 32-bit size of the allocated buffer, the buffer, and the next free index
    var size: nat
    var buffer: array<byte>
    var pos: nat

    ghost predicate Valid()
      reads this
    {
      4 <= pos <= size == buffer.Length < TWO32
    }

    // everything added since the last reset; the first four bytes are kept for the length
    ghost function Contents(): seq<byte>
      requires Valid()
      reads this, buffer
    {
      buffer[4..pos]
    }

    constructor ()
      ensures Valid() && Contents() == [] && size == 32 && fresh(buffer)
    {
      size := 32;
      buffer := new byte[32](_ => 0);
      pos := 4;
    }

    /** Appends b. Whether or not the buffer had to grow, what was there stays and b follows it. */
    method AddRaw(b: seq<byte>)
      requires Valid()
      // the 32-bit sum for the grown buffer does not wrap
      requires |b| <= size - pos || size + Max(|b|, size) < TWO32
      modifies this, buffer
      ensures Valid() && Contents() == old(Contents()) + b
      ensures pos == old(pos) + |b|
      ensures size >= old(size) && (buffer == old(buffer) || fresh(buffer))
    {
      ghost var before := Contents();
      var len := |b|;
      var free := size - pos;
      if free < len {
        var newSize := size + Max(len, size);
        var newBuffer := new byte[newSize](_ => 0);
        Copy(newBuffer, 0, buffer[..pos]);
        assert newBuffer[4..pos] == before;
        size := newSize;
        buffer := newBuffer;
      }
      Copy(buffer, pos, b);
      assert buffer[4..pos + len] == before + b;
      pos := pos + len;
    }

    method Reset()
      requires Valid()
      modifies this
      ensures Valid() && Contents() == [] && buffer == old(buffer) && size == old(size)
    {
      pos := 4;
    }

    /** The length of the contents in four bytes, then the contents. */
    method OutputUsing() returns (out: seq<byte>)
      requires Valid()
      modifies buffer
      ensures Valid() && Contents() == old(Contents())
      ensures out == LittleEndian(|Contents()|, 4) + Contents()
    {
      ghost var before := Contents();
      Copy(buffer, 0, LittleEndian(pos - 4, 4));
      out := buffer[..pos];
      assert out == out[..4] + out[4..];
      assert buffer[4..] == old(buffer[4..]) by {
        assert buffer[4..] == buffer[..][4..];
      }
      assert out[4..] == buffer[4..][..pos - 4] == before;
      assert out[..4] == buffer[..][..4];
    }

    method AddVarint(v: nat)
      requires Valid() && pos + |VarintTo(v)| <= TWO31
      modifies this, buffer
      ensures Valid() && Contents() == old(Contents()) + VarintTo(v)
      ensures buffer == old(buffer) || fresh(buffer)
    {
      ghost var goal := Contents() + VarintTo(v);
      var j := v;
      while j >= 0x80
        invariant Valid() && (buffer == old(buffer) || fresh(buffer))
        invariant Contents() + VarintTo(j) == goal && |goal| + 4 <= TWO31
      {
        Regroup(Contents(), [j % 0x80 + 0x80], VarintTo(j / 0x80));
        AddRaw([j % 0x80 + 0x80]);
        j := j / 0x80;
      }
      AddRaw([j]);
    }

    /** The size, then the elements from the last to the first. */
    method AddVector<T(!new)>(c: Codec<T>, ts: seq<T>)
      requires Valid() && pos + |VectorTo(c.enc, ts)| <= TWO31
      modifies this, buffer
      ensures Valid() && Contents() == old(Contents()) + VectorTo(c.enc, ts)
      ensures buffer == old(buffer) || fresh(buffer)
    {
      ghost var goal := Contents() + VectorTo(c.enc, ts);
      Regroup(Contents(), LittleEndian(|ts| % TWO32, 4), ItemsTo(c.enc, ts));
      AddRaw(LittleEndian(|ts| % TWO32, 4));
      var i := |ts|;
      assert ts[..i] == ts;
      while i > 0
        invariant 0 <= i <= |ts|
        invariant Valid() && (buffer == old(buffer) || fresh(buffer))
        invariant Contents() + ItemsTo(c.enc, ts[..i]) == goal && |goal| + 4 <= TWO31
      {
        i := i - 1;
        assert ts[..i + 1][..i] == ts[..i] && ts[..i + 1][i] == ts[i];
        Regroup(Contents(), c.enc(ts[i]), ItemsTo(c.enc, ts[..i]));
        AddRaw(c.enc(ts[i]));
      }
    }
  }

  lemma {:induction false} Regroup(a: seq<byte>, b: seq<byte>, c: seq<byte>)
    ensures a + (b + c) == (a + b) + c
  {
  }

  // memcpy
  method Copy(dst: array<byte>, at: nat, src: seq<byte>)
    requires at + |src| <= dst.Length
    modifies dst
    ensures dst[..] == old(dst[..at]) + src + old(dst[at + |src|..])
  {
    var i := 0;
    while i < |src|
      invariant 0 <= i <= |src|
      invariant forall k :: 0 <= k < i ==> dst[at + k] == src[k]
      invariant dst[..at] == old(dst[..at]) && dst[at + i..] == old(dst[at + i..])
    {
      dst[at + i] := src[i];
      i := i + 1;
    }
    assert dst[at..at + |src|] == src;
    assert dst[..] == dst[..at] + dst[at..at + |src|] + dst[at + |src|..];
  }

  /** A view on a buffer with a cursor. Each reader does to the cursor what its
      specification says: past the value, or where the exception left it. */
  class Message {
    const data: seq<byte>
    const initialOffset: nat
    const length: nat
    var pos: nat

    ghost predicate Valid() {
      initialOffset + length <= |data|
    }

    // what can be read: the buffer up to the end of the view
    ghost function View(): seq<byte>
      requires Valid()
    {
      data[..initialOffset + length]
    }

    ghost predicate Did<T>(r: Parsed<T>, expected: Parsed<T>)
      reads this
    {
      r == expected && (r.Ok? || r.Thrown? ==> pos == r.pos)
    }

    constructor (data: seq<byte>, offset: nat, length: nat)
      requires offset + length <= |data|
      ensures Valid() && pos == offset && View() == data[..offset + length]
    {
      this.data := data;
      initialOffset := offset;
      this.length := length;
      pos := offset;
    }

    method GetNestedMessage(len: nat) returns (r: Parsed<seq<byte>>, nested: Message?)
      requires Valid()
      ensures nested == null <==> r.Thrown?
      ensures r == if pos + len > |View()| then Thrown(pos) else Ok(data[..pos + len], pos)
      ensures nested != null ==>
                fresh(nested) && nested.Valid() && nested.View() == data[..pos + len] && nested.pos == pos
    {
      if pos + len > initialOffset + length {
        return Thrown(pos), null;
      }
      nested := new Message(data, pos, len);
      r := Ok(data[..pos + len], pos);
    }

    method FromU8() returns (r: Parsed<byte>)
      requires Valid()
      modifies this
      ensures Did(r, U8From(View(), old(pos)))
    {
      if pos + 1 > initialOffset + length {
        return Thrown(pos);
      }
      r := Ok(data[pos], pos + 1);
      pos := pos + 1;
    }

    method FromWord(n: nat) returns (r: Parsed<nat>)
      requires Valid()
      modifies this
      ensures Did(r, WordFrom(n, View(), old(pos)))
    {
      if pos + n > initialOffset + length {
        return Thrown(pos);
      }
      assert View()[pos..pos + n] == data[pos..pos + n];
      r := Ok(FromLittleEndian(data[pos..pos + n]), pos + n);
      pos := pos + n;
    }

    method FromString() returns (r: Parsed<seq<byte>>)
      requires Valid()
      modifies this
      ensures Did(r, StringFrom(View(), old(pos)))
    {
      WordIsSmall(View(), pos);
      var size := FromWord(4);
      if size.Thrown? {
        return Thrown(pos);
      }
      if pos + size.value > initialOffset + length {
        return Thrown(pos);
      }
      assert View()[pos..pos + size.value] == data[pos..pos + size.value];
      r := Ok(data[pos..pos + size.value], Skip(pos, size.value));
      pos := Skip(pos, size.value);
    }

    /** Adds up the bytes' low seven bits, modulo 2^64, until a byte below 0x80. */
    method FromVarint() returns (r: Parsed<nat>)
      requires Valid()
      modifies this
      ensures Did(r, VarintFrom(View(), old(pos)))
    {
      ghost var expected := VarintFrom(View(), pos);
      var sum: nat := 0;
      var k := 0; // the shift is seven times k
      var b0 := FromU8();
      if b0.Thrown? {
        return Thrown(pos);
      }
      while b0.value >= 0x80
        invariant b0.Ok? && 0 < pos <= |View()| && b0.value == View()[pos - 1]
        invariant expected == VarintRest(View(), pos - 1, k, sum)
        decreases |View()| - pos
      {
        sum := AddShifted(sum, b0.value - 0x80, k);
        b0 := FromU8();
        if b0.Thrown? {
          return Thrown(pos);
        }
        k := k + 1;
      }
      sum := AddShifted(sum, b0.value, k);
      r := Ok(sum, pos);
    }
  }

  method ReadVector<T(!new)>(zero: T, c: Codec<T>, bs: seq<byte>, start: nat) returns (r: Parsed<seq<T>>)
    ensures r == LayoutFrom(zero, c.dec, bs, start)
  {
    var size := WordFrom(4, bs, start);
    if size.Thrown? {
      return Thrown(size.pos);
    }
    WordIsSmall(bs, start);
    r := ReadItems(zero, c, bs, size.pos, size.value);
  }

  /** The descending loop of a vector reader fills the vector its specification describes. */
  method ReadItems<T(!new)>(zero: T, c: Codec<T>, bs: seq<byte>, start: nat, n: nat) returns (r: Parsed<seq<T>>)
    requires n < TWO32
    ensures r == LayoutItems(zero, c.dec, bs, start, n)
  {
    var pos := start;
    var ts := seq(n, _ => zero);
    var i := if n <= TWO31 then n - 1 else n - 1 - TWO32; // as an int32
    PlacedNothing(ItemsFrom(c.dec, bs, pos, n));
    assert ts[n..] == [];
    while i >= 0
      invariant n > TWO31 ==> i < 0 && pos == start && ts == seq(n, _ => zero)
      invariant n <= TWO31 ==> -1 <= i < n == |ts|
      invariant n <= TWO31 ==> ItemsFrom(c.dec, bs, start, n) == Placed(ItemsFrom(c.dec, bs, pos, i + 1), ts[i + 1..])
    {
      match c.dec(bs, pos) {
        case Ok(v, p) =>
          ItemsStep(c, bs, pos, i + 1, ts[i + 1..]);
          ts := ts[i := v];
          pos := p;
          assert ts[i..] == [v] + ts[i + 1..];
        case Thrown(p) => return Thrown(p);
        case ThrownOther => return ThrownOther;
        case Aborted => return Aborted;
      }
      i := i - 1;
    }
    r := Ok(ts, pos);
    assert n <= TWO31 ==> [] + ts[0..] == ts;
  }

  lemma {:induction false} ItemsStep<T(!new)>(c: Codec<T>, bs: seq<byte>, pos: nat, n: nat, rest: seq<T>)
    requires n > 0 && c.dec(bs, pos).Ok?
    ensures var v := c.dec(bs, pos);
      Placed(ItemsFrom(c.dec, bs, pos, n), rest) == Placed(ItemsFrom(c.dec, bs, v.pos, n - 1), [v.value] + rest)
  {
    var v := c.dec(bs, pos);
    PlacedMore(ItemsFrom(c.dec, bs, v.pos, n - 1), v.value, rest);
  }

  // the outcome for the first elements, followed by elements already read
  ghost function Placed<T>(front: Parsed<seq<T>>, rest: seq<T>): Parsed<seq<T>> {
    match front
    case Ok(ts, p) => Ok(ts + rest, p)
    case other => other
  }

  lemma {:induction false} PlacedNothing<T>(front: Parsed<seq<T>>)
    ensures Placed(front, []) == front
  {
    if front.Ok? {
      assert front.value + [] == front.value;
    }
  }

  lemma {:induction false} PlacedMore<T>(front: Parsed<seq<T>>, v: T, rest: seq<T>)
    ensures Placed(Placed(front, [v]), rest) == Placed(front, [v] + rest)
  {
    if front.Ok? {
      assert front.value + ([v] + rest) == front.value + [v] + rest;
    }
  }
}
