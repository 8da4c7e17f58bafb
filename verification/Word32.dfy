/** 32-bit registers, the operations of the division, and their laws. */
module Word32 {
  import opened Crc32cTable
  import opened Gf2Division

  function Odd(r: bv32): bool { r & 1 == 1 }
  function Half(r: bv32): bv32 { r >> 1 }
  function Xor(a: bv32, b: bv32): bv32 { a ^ b }
  function BitStep(c: bv32, bit: bool): bv32 { Shift1(if bit then Xor(c, 1) else c) }

  const READER: Reader<bv32> := Reader(Odd, Half)
  const WORDS: Words<bv32> := Words(READER, Xor, 0, 1, POLY, Shift1, BitStep)

  lemma {:induction false} OddXor(x: bv32, e: bv32)
    ensures !Odd(e) ==> Odd(Xor(x, e)) == Odd(x)
  {
  }

  lemma {:induction false} HalfXor(x: bv32, e: bv32)
    ensures Half(Xor(x, e)) == Xor(Half(x), Half(e))
  {
  }

  lemma {:induction false} SwapXor(a: bv32, b: bv32)
    ensures Xor(Xor(a, b), POLY) == Xor(Xor(a, POLY), b)
  {
  }

  lemma {:induction false} OneXor(c: bv32, r: bv32)
    ensures Xor(c, r) == Xor(Xor(c, 1), Xor(r, 1))
  {
  }

  lemma {:induction false} FlipXor(r: bv32)
    ensures Odd(r) ==> !Odd(Xor(r, 1)) && Half(Xor(r, 1)) == Half(r)
  {
  }

  lemma {:induction false} ZeroXor(x: bv32)
    ensures Xor(x, 0) == x
  {
  }

  lemma {:induction false} WordsShift()
    ensures ShiftLaw(WORDS)
  {
  }

  lemma {:induction false} WordsStep()
    ensures StepLaw(WORDS)
  {
  }

  lemma {:induction false} WordsOdd()
    ensures OddLaw(WORDS)
  {
    forall x, e ensures !Odd(e) ==> Odd(Xor(x, e)) == Odd(x) { OddXor(x, e); }
  }

  lemma {:induction false} WordsHalf()
    ensures HalfLaw(WORDS)
  {
    forall x, e ensures Half(Xor(x, e)) == Xor(Half(x), Half(e)) { HalfXor(x, e); }
  }

  lemma {:induction false} WordsSwap()
    ensures SwapLaw(WORDS)
  {
    forall a, b ensures Xor(Xor(a, b), POLY) == Xor(Xor(a, POLY), b) { SwapXor(a, b); }
  }

  lemma {:induction false} WordsOne()
    ensures OneLaw(WORDS)
  {
    forall c, r ensures Xor(c, r) == Xor(Xor(c, 1), Xor(r, 1)) { OneXor(c, r); }
  }

  lemma {:induction false} WordsFlip()
    ensures FlipLaw(WORDS)
  {
    forall r ensures Odd(r) ==> !Odd(Xor(r, 1)) && Half(Xor(r, 1)) == Half(r) { FlipXor(r); }
  }

  lemma {:induction false} WordsZero()
    ensures ZeroLaw(WORDS)
  {
    forall x ensures Xor(x, 0) == x { ZeroXor(x); }
  }

  // 32-bit words with exclusive or and the reflected Castagnoli polynomial satisfy the laws.
  lemma {:induction false} WordsObeyLaws()
    ensures Laws(WORDS)
  {
    WordsShift();
    WordsStep();
    WordsOdd();
    WordsHalf();
    WordsSwap();
    WordsOne();
    WordsFlip();
  }

  lemma {:induction false} WordsEvenAndPeel()
    ensures EvenMovesDown(WORDS) && DigitsPeel(WORDS)
  {
    WordsObeyLaws();
    LawsGiveEven(WORDS);
    LawsGivePeel(WORDS);
  }

  // ------------------------------------------------------------------
  // The lowest byte and the rest of a register
  // ------------------------------------------------------------------

  function Low(x: bv32): bv32 { x & 0xFF }
  function High(x: bv32): bv32 { x & 0xFFFF_FF00 }
  function Half4(x: bv32): bv32 { Half(Half(Half(Half(x)))) }

  lemma {:induction false} SplitWord(x: bv32)
    ensures x == Xor(Low(x), High(x))
  {
  }

  lemma {:induction false} Half8(x: bv32)
    ensures Half4(Half4(x)) == x >> 8
  {
  }

  lemma {:induction false} HighHasNoLowDigits(x: bv32)
    ensures !Odd(High(x)) && !Odd(Half(High(x))) && !Odd(Half(Half(High(x)))) && !Odd(Half(Half(Half(High(x)))))
    ensures !Odd(Half4(High(x))) && !Odd(Half(Half4(High(x)))) && !Odd(Half(Half(Half4(High(x)))))
            && !Odd(Half(Half(Half(Half4(High(x))))))
  {
  }

  lemma {:induction false} HighMovesDown(x: bv32)
    ensures High(x) >> 8 == x >> 8
  {
  }

  lemma {:induction false} HighDigits(x: bv32)
    ensures Digits(READER, High(x), 8) == Zeros(8)
    ensures HalfTimes(READER, High(x), 8) == x >> 8
  {
    Digits8(READER, High(x));
    HighHasNoLowDigits(x);
    Half8(High(x));
    HighMovesDown(x);
    assert Zeros(4) == [false, false, false, false];
    assert Zeros(8) == Zeros(4) + Zeros(4);
  }

  lemma {:induction false} ShiftTimes8(x: bv32)
    ensures ShiftTimes(WORDS, x, 8) == Shift8(x)
  {
    ShiftTimesConcat(WORDS, x, 4, 4);
    ShiftTimes4(x);
    ShiftTimes4(ShiftTimes(WORDS, x, 4));
  }

  lemma {:induction false} ShiftTimes4(x: bv32)
    ensures ShiftTimes(WORDS, x, 4) == Shift1(Shift1(Shift1(Shift1(x))))
  {
    ShiftTimesConcat(WORDS, x, 2, 2);
    var y := Shift1(Shift1(x));
    assert ShiftTimes(WORDS, x, 2) == y;
    assert ShiftTimes(WORDS, y, 2) == Shift1(Shift1(y));
  }

  // Eight steps of the register: its lowest byte by the table, the rest moves down.
  lemma {:induction false} EightShifts(x: bv32)
    ensures ShiftTimes(WORDS, x, 8) == Xor(Shift8(Low(x)), x >> 8)
  {
    SplitWord(x);
    WordsEvenAndPeel();
    HighDigits(x);
    HighPartMovesDown(WORDS, Low(x), High(x), 8);
    ShiftTimes8(Low(x));
  }
}
