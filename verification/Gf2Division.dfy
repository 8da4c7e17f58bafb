/** Bit-serial division by a polynomial over GF(2), over any kind of machine word.

    The words are given by their operations only: exclusive or, the lowest digit,
    and the word without its lowest digit. */
module Gf2Division {

  // reading the binary digits of a word, lowest first
  datatype Reader<!R(!new)> = Reader(odd: R -> bool, half: R -> R)

  // `shift` is one step of the division register, `step` lets one message digit enter it.
  datatype Words<!W(!new)> = Words(reader: Reader<W>, xor: (W, W) -> W, zero: W, one: W, poly: W,
                                   shift: W -> W, step: (W, bool) -> W)

  function Digits<R(!new)>(g: Reader<R>, r: R, n: nat): seq<bool>
    decreases n
  {
    if n == 0 then [] else [g.odd(r)] + Digits(g, g.half(r), n - 1)
  }

  function HalfTimes<R(!new)>(g: Reader<R>, r: R, n: nat): R
    decreases n
  {
    if n == 0 then r else HalfTimes(g, g.half(r), n - 1)
  }

  function ShiftTimes<W(!new)>(w: Words<W>, x: W, n: nat): W
    decreases n
  {
    if n == 0 then x else ShiftTimes(w, w.shift(x), n - 1)
  }

  function Divide<W(!new)>(w: Words<W>, c: W, digits: seq<bool>): W
    decreases |digits|
  {
    if digits == [] then c else Divide(w, w.step(c, digits[0]), digits[1..])
  }

  // What the operations must satisfy: shifting moves down and subtracts the polynomial
  // when the digit that fell out was set, and exclusive or works digit by digit.
  ghost predicate Laws<W(!new)>(w: Words<W>) {
    ShiftLaw(w) && StepLaw(w) && OddLaw(w) && HalfLaw(w) && SwapLaw(w) && OneLaw(w) && FlipLaw(w)
  }

  ghost predicate ShiftLaw<W(!new)>(w: Words<W>) {
    forall x :: w.shift(x) == if w.reader.odd(x) then w.xor(w.reader.half(x), w.poly) else w.reader.half(x)
  }

  ghost predicate StepLaw<W(!new)>(w: Words<W>) {
    forall c, d :: w.step(c, d) == w.shift(if d then w.xor(c, w.one) else c)
  }

  ghost predicate OddLaw<W(!new)>(w: Words<W>) {
    forall x, e :: !w.reader.odd(e) ==> w.reader.odd(w.xor(x, e)) == w.reader.odd(x)
  }

  ghost predicate HalfLaw<W(!new)>(w: Words<W>) {
    forall x, e :: w.reader.half(w.xor(x, e)) == w.xor(w.reader.half(x), w.reader.half(e))
  }

  ghost predicate SwapLaw<W(!new)>(w: Words<W>) {
    forall a, b :: w.xor(w.xor(a, b), w.poly) == w.xor(w.xor(a, w.poly), b)
  }

  ghost predicate OneLaw<W(!new)>(w: Words<W>) {
    forall c, r :: w.reader.odd(r) ==> w.xor(c, r) == w.xor(w.xor(c, w.one), w.xor(r, w.one))
  }

  ghost predicate FlipLaw<W(!new)>(w: Words<W>) {
    forall r :: w.reader.odd(r) ==> !w.reader.odd(w.xor(r, w.one)) && w.reader.half(w.xor(r, w.one)) == w.reader.half(r)
  }

  ghost predicate ZeroLaw<W(!new)>(w: Words<W>) {
    forall x :: w.xor(x, w.zero) == x
  }

  lemma {:induction false} DivideConcat<W(!new)>(w: Words<W>, c: W, a: seq<bool>, b: seq<bool>)
    ensures Divide(w, c, a + b) == Divide(w, Divide(w, c, a), b)
    decreases |a|
  {
    if a == [] {
      assert a + b == b;
    } else {
      assert (a + b)[1..] == a[1..] + b;
      DivideConcat(w, w.step(c, a[0]), a[1..], b);
    }
  }

  lemma {:induction false} DigitsConcat<R(!new)>(g: Reader<R>, r: R, n: nat, m: nat)
    ensures HalfTimes(g, r, n + m) == HalfTimes(g, HalfTimes(g, r, n), m)
    ensures Digits(g, r, n + m) == Digits(g, r, n) + Digits(g, HalfTimes(g, r, n), m)
    decreases n
  {
    if n == 0 {
      assert [] + Digits(g, r, m) == Digits(g, r, m);
    } else {
      DigitsConcat(g, g.half(r), n - 1, m);
      var a := Digits(g, g.half(r), n - 1);
      var b := Digits(g, HalfTimes(g, r, n), m);
      assert [g.odd(r)] + (a + b) == ([g.odd(r)] + a) + b;
    }
  }

  // Digits above the lowest only move down.
  ghost predicate EvenMovesDown<W(!new)>(w: Words<W>) {
    forall x, e :: !w.reader.odd(e) ==> w.shift(w.xor(x, e)) == w.xor(w.shift(x), w.reader.half(e))
  }

  // The register holds the state combined with the digits still to come: one shift
  // consumes one digit.
  ghost predicate DigitsPeel<W(!new)>(w: Words<W>) {
    forall c, r :: w.shift(w.xor(c, r)) == w.xor(w.step(c, w.reader.odd(r)), w.reader.half(r))
  }

  lemma {:induction false} LawsGiveEven<W(!new)>(w: Words<W>)
    requires Laws(w)
    ensures EvenMovesDown(w)
  {
    forall x, e | !w.reader.odd(e)
      ensures w.shift(w.xor(x, e)) == w.xor(w.shift(x), w.reader.half(e))
    {
      assert w.reader.odd(w.xor(x, e)) == w.reader.odd(x);
      assert w.reader.half(w.xor(x, e)) == w.xor(w.reader.half(x), w.reader.half(e));
      assert w.xor(w.xor(w.reader.half(x), w.reader.half(e)), w.poly)
             == w.xor(w.xor(w.reader.half(x), w.poly), w.reader.half(e));
    }
  }

  lemma {:induction false} LawsGivePeel<W(!new)>(w: Words<W>)
    requires Laws(w)
    ensures DigitsPeel(w)
  {
    LawsGiveEven(w);
    forall c, r
      ensures w.shift(w.xor(c, r)) == w.xor(w.step(c, w.reader.odd(r)), w.reader.half(r))
    {
      if w.reader.odd(r) {
        assert w.xor(c, r) == w.xor(w.xor(c, w.one), w.xor(r, w.one));
      }
    }
  }

  /** n shifts of state-and-digits consume n digits. */
  lemma {:induction false} PeelDigits<W(!new)>(w: Words<W>, c: W, r: W, n: nat)
    requires DigitsPeel(w)
    ensures ShiftTimes(w, w.xor(c, r), n) == w.xor(Divide(w, c, Digits(w.reader, r, n)), HalfTimes(w.reader, r, n))
    decreases n
  {
    if n > 0 {
      PeelDigits(w, w.step(c, w.reader.odd(r)), w.reader.half(r), n - 1);
      assert Digits(w.reader, r, n)[1..] == Digits(w.reader, w.reader.half(r), n - 1);
    }
  }

  // Dividing the n lowest digits of r, when nothing of r is left after them.
  lemma {:induction false} DivideDigits<W(!new)>(w: Words<W>, c: W, r: W, n: nat)
    requires DigitsPeel(w) && ZeroLaw(w)
    requires HalfTimes(w.reader, r, n) == w.zero
    ensures Divide(w, c, Digits(w.reader, r, n)) == ShiftTimes(w, w.xor(c, r), n)
  {
    PeelDigits(w, c, r, n);
  }

  function Zeros(n: nat): seq<bool> {
    if n == 0 then [] else [false] + Zeros(n - 1)
  }

  // n shifts of a low and a high part, when the high part has no digit among the n lowest.
  lemma {:induction false} HighPartMovesDown<W(!new)>(w: Words<W>, lo: W, hi: W, n: nat)
    requires EvenMovesDown(w) && Digits(w.reader, hi, n) == Zeros(n)
    ensures ShiftTimes(w, w.xor(lo, hi), n) == w.xor(ShiftTimes(w, lo, n), HalfTimes(w.reader, hi, n))
    decreases n
  {
    if n > 0 {
      assert Digits(w.reader, hi, n)[0] == Zeros(n)[0] == false;
      assert Digits(w.reader, hi, n)[1..] == Zeros(n)[1..];
      assert Digits(w.reader, w.reader.half(hi), n - 1) == Zeros(n - 1);
      HighPartMovesDown(w, w.shift(lo), w.reader.half(hi), n - 1);
    }
  }

  // ------------------------------------------------------------------
  // Eight of everything, written out
  // ------------------------------------------------------------------

  function Odds4<R(!new)>(g: Reader<R>, r: R): seq<bool> {
    [g.odd(r), g.odd(g.half(r)), g.odd(g.half(g.half(r))), g.odd(g.half(g.half(g.half(r))))]
  }

  lemma {:induction false} Digits4<R(!new)>(g: Reader<R>, r: R)
    ensures Digits(g, r, 4) == Odds4(g, r)
    ensures HalfTimes(g, r, 4) == g.half(g.half(g.half(g.half(r))))
  {
    var r3 := g.half(g.half(g.half(r)));
    assert Digits(g, g.half(r3), 0) == [];
    assert Digits(g, r3, 1) == [g.odd(r3)];
    assert Digits(g, g.half(g.half(r)), 2) == [g.odd(g.half(g.half(r))), g.odd(r3)];
    assert Digits(g, g.half(r), 3) == [g.odd(g.half(r)), g.odd(g.half(g.half(r))), g.odd(r3)];
    assert HalfTimes(g, g.half(r3), 0) == g.half(r3);
    assert HalfTimes(g, r3, 1) == g.half(r3);
    assert HalfTimes(g, g.half(g.half(r)), 2) == g.half(r3);
  }

  lemma {:induction false} Digits8<R(!new)>(g: Reader<R>, r: R)
    ensures Digits(g, r, 8) == Odds4(g, r) + Odds4(g, g.half(g.half(g.half(g.half(r)))))
    ensures HalfTimes(g, r, 8) == g.half(g.half(g.half(g.half(g.half(g.half(g.half(g.half(r))))))))
  {
    DigitsConcat(g, r, 4, 4);
    Digits4(g, r);
    Digits4(g, g.half(g.half(g.half(g.half(r)))));
  }

  lemma {:induction false} ShiftTimesConcat<W(!new)>(w: Words<W>, x: W, n: nat, m: nat)
    ensures ShiftTimes(w, x, n + m) == ShiftTimes(w, ShiftTimes(w, x, n), m)
    decreases n
  {
    if n > 0 {
      ShiftTimesConcat(w, w.shift(x), n - 1, m);
    }
  }
}
