/**
 * CRC-32 of section 3.2.9 of IEEE 802.3, as the firmware computes it
 * (firmware/src/protocol.cpp:136-156) and as zlib computes it for the backend.
 *
 * `Crc32Of` is the reference: a shift register that takes the message one bit at a
 * time, least significant bit first.  The table-driven loop of the firmware is the
 * method `Crc32`, proved equal to that reference.
 */
module Crc {

  type byte = bv8

  const ONES: bv32 := 0xFFFFFFFF

  /** Exclusive or.  Named so that proofs can reason from its laws and not bit by bit. */
  function X(a: bv32, b: bv32): bv32 { a ^ b }

  function Widen(b: byte): bv32 { b as bv32 }

  function Index(i: int): bv32
    requires 0 <= i < 256
  {
    i as bv32
  }

  function Low(c: bv32): bv32 { c & 1 }

  function Half(c: bv32): bv32 { c >> 1 }

  function LowByte(c: bv32): bv32 { c & 0xFF }

  function Down(c: bv32): bv32 { c >> 8 }

  function Up(c: bv32): bv32 { c << 8 }

  /** One clock of the reflected shift register. */
  function Shift(c: bv32): bv32 {
    if Low(c) == 1 then X(0xEDB88320, Half(c)) else Half(c)
  }

  /** `k` clocks with no message bits entering. */
  function Shifts(c: bv32, k: nat): bv32
    decreases k
  {
    if k == 0 then c else Shifts(Shift(c), k - 1)
  }

  /** Clocks the low `k` bits of `m` into the register, one bit per clock. */
  function Serial(c: bv32, m: bv32, k: nat): bv32
    decreases k
  {
    if k == 0 then c else Serial(Shift(X(c, Low(m))), Half(m), k - 1)
  }

  /** The register after the message bytes `s`. */
  function Register(c: bv32, s: seq<byte>): bv32
    decreases |s|
  {
    if s == [] then c else Register(Serial(c, Widen(s[0]), 8), s[1..])
  }

  /** The reference checksum; `seed` is the checksum of what came before. */
  function Crc32Of(s: seq<byte>, seed: bv32): bv32 {
    X(Register(X(seed, ONES), s), ONES)
  }

  // ------------------------------------------------------------ laws of exclusive or

  lemma Assoc(a: bv32, b: bv32, c: bv32)
    ensures X(a, X(b, c)) == X(X(a, b), c)
  {}

  lemma Comm(a: bv32, b: bv32)
    ensures X(a, b) == X(b, a)
  {}

  lemma Self(a: bv32)
    ensures X(a, a) == 0
  {}

  lemma Zero(a: bv32)
    ensures X(a, 0) == a
  {}

  lemma Twice(a: bv32, b: bv32)
    ensures X(X(a, b), b) == a
  {
    Assoc(a, b, b);
    Self(b);
    Zero(a);
  }

  lemma Apart(a: bv32, b: bv32)
    ensures X(a, b) == 0 <==> a == b
  {
    Self(b);
    Twice(a, b);
    Zero(b);
    Comm(b, 0);
  }

  lemma Shuffle(a: bv32, b: bv32, x: bv32, y: bv32)
    ensures X(X(a, x), X(b, y)) == X(X(a, b), X(x, y))
  {
    hide X;
    Assoc(a, x, X(b, y));
    Assoc(x, b, y);
    Comm(x, b);
    Assoc(b, x, y);
    Assoc(a, b, X(x, y));
  }

  lemma XorHalves(a: bv32, b: bv32)
    ensures (a ^ b) >> 1 == (a >> 1) ^ (b >> 1)
  {}

  lemma XHalf(a: bv32, b: bv32)
    ensures Half(X(a, b)) == X(Half(a), Half(b))
  {
    XorHalves(a, b);
  }

  lemma XLow(a: bv32, b: bv32)
    ensures Low(X(a, b)) == X(Low(a), Low(b))
  {}

  lemma LowBit(a: bv32)
    ensures Low(a) == 0 || Low(a) == 1
  {}

  // ------------------------------------------------------------ linearity of the register

  lemma ShiftXor(a: bv32, b: bv32)
    ensures Shift(X(a, b)) == X(Shift(a), Shift(b))
  {
    XHalf(a, b);
    XLow(a, b);
    LowBit(a);
    LowBit(b);
    BitTable();
    hide X, Low, Half;
    PolyXor(Half(a), Half(b));
  }

  lemma BitTable()
    ensures X(0, 0) == 0 && X(0, 1) == 1 && X(1, 0) == 1 && X(1, 1) == 0
  {}

  lemma PolyXor(p: bv32, q: bv32)
    ensures X(X(0xEDB88320, p), q) == X(0xEDB88320, X(p, q))
    ensures X(p, X(0xEDB88320, q)) == X(0xEDB88320, X(p, q))
    ensures X(X(0xEDB88320, p), X(0xEDB88320, q)) == X(p, q)
  {
    hide X;
    var k: bv32 := 0xEDB88320;
    Assoc(k, p, q);
    Comm(p, X(k, q));
    Assoc(k, q, p);
    Comm(q, p);
    Shuffle(k, k, p, q);
    Self(k);
    Comm(0, X(p, q));
    Zero(X(p, q));
  }

  lemma {:induction false} ShiftsXor(a: bv32, b: bv32, k: nat)
    ensures Shifts(X(a, b), k) == X(Shifts(a, k), Shifts(b, k))
    decreases k
  {
    hide X, Shift;
    if k != 0 {
      ShiftXor(a, b);
      ShiftsXor(Shift(a), Shift(b), k - 1);
    }
  }

  lemma ShiftZero(a: bv32)
    ensures Shift(a) == 0 <==> a == 0
  {}

  /** The register loses nothing: only the zero register clocks to zero. */
  lemma {:induction false} ShiftsZero(a: bv32, k: nat)
    ensures Shifts(a, k) == 0 <==> a == 0
    decreases k
  {
    hide Shift;
    if k != 0 {
      ShiftZero(a);
      ShiftsZero(Shift(a), k - 1);
    }
  }

  lemma {:induction false} ShiftsAdd(a: bv32, j: nat, k: nat)
    ensures Shifts(a, j + k) == Shifts(Shifts(a, j), k)
    decreases j
  {
    hide Shift;
    if j != 0 {
      ShiftsAdd(Shift(a), j - 1, k);
    }
  }

  // ------------------------------------------------------------ a byte at a time

  lemma EvenShift(m: bv32)
    requires Low(m) == 0
    ensures Shift(m) == Half(m)
  {}

  lemma SplitLowBit(c: bv32, m: bv32)
    ensures exists e :: X(c, m) == X(X(c, Low(m)), e) && Low(e) == 0 && Half(e) == Half(m)
  {
    var e := m & 0xFFFFFFFE;
    LowBitApart(m);
    UpperBits(m);
    hide Low, Half, X;
    Assoc(c, Low(m), e);
  }

  lemma LowBitApart(m: bv32)
    ensures X(Low(m), m & 0xFFFFFFFE) == m
  {
    MaskBits(m);
  }

  lemma MaskBits(m: bv32)
    ensures (m & 1) ^ (m & 0xFFFFFFFE) == m
  {}

  lemma UpperBits(m: bv32)
    ensures Low(m & 0xFFFFFFFE) == 0 && Half(m & 0xFFFFFFFE) == Half(m)
  {}

  /** `m` has no set bit above its low `k` bits. */
  predicate Fits(m: bv32, k: nat)
    decreases k
  {
    if k == 0 then m == 0 else Fits(Half(m), k - 1)
  }

  /** Clocking `k` bits in one by one is XORing them in at once and then clocking `k` times. */
  lemma {:induction false} SerialShifts(c: bv32, m: bv32, k: nat)
    requires Fits(m, k)
    ensures Serial(c, m, k) == Shifts(X(c, m), k)
    decreases k
  {
    hide X, Shift, Low, Half;
    if k == 0 {
      Zero(c);
    } else {
      SplitLowBit(c, m);
      var e :| X(c, m) == X(X(c, Low(m)), e) && Low(e) == 0 && Half(e) == Half(m);
      ShiftXor(X(c, Low(m)), e);
      EvenShift(e);
      SerialShifts(Shift(X(c, Low(m))), Half(m), k - 1);
    }
  }

  lemma EightHalves(m: bv32)
    ensures Half(Half(Half(Half(Half(Half(Half(Half(m)))))))) == Down(m)
  {
    EightShifts(m);
  }

  lemma EightShifts(m: bv32)
    ensures m >> 1 >> 1 >> 1 >> 1 >> 1 >> 1 >> 1 >> 1 == m >> 8
  {}

  lemma ByteIsSmall(b: byte)
    ensures Down(Widen(b)) == 0
  {}

  lemma ByteFits(b: byte)
    ensures Fits(Widen(b), 8)
  {
    hide Widen, Half, Down;
    var m1 := Half(Widen(b));  var m2 := Half(m1);  var m3 := Half(m2);  var m4 := Half(m3);
    var m5 := Half(m4);  var m6 := Half(m5);  var m7 := Half(m6);
    ByteIsSmall(b);
    EightHalves(Widen(b));
    assert Fits(m7, 1);
    assert Fits(m5, 3);
    assert Fits(m3, 5);
    assert Fits(m1, 7);
  }

  lemma ByteStep(c: bv32, b: byte)
    ensures Serial(c, Widen(b), 8) == Shifts(X(c, Widen(b)), 8)
  {
    ByteFits(b);
    SerialShifts(c, Widen(b), 8);
  }

  lemma LowByteZero(m: bv32)
    requires LowByte(m) == 0
    ensures Low(m) == 0
    ensures Low(Half(m)) == 0
    ensures Low(Half(Half(m))) == 0
    ensures Low(Half(Half(Half(m)))) == 0
    ensures Low(Half(Half(Half(Half(m))))) == 0
    ensures Low(Half(Half(Half(Half(Half(m)))))) == 0
    ensures Low(Half(Half(Half(Half(Half(Half(m))))))) == 0
    ensures Low(Half(Half(Half(Half(Half(Half(Half(m)))))))) == 0
  {}

  /** Eight clocks of a register whose low byte is zero only move it down a byte. */
  lemma HighBytesMove(m: bv32)
    requires LowByte(m) == 0
    ensures Shifts(m, 8) == Down(m)
  {
    LowByteZero(m);
    hide Shift, Half, Low, Down, LowByte;
    var m1 := Half(m);  var m2 := Half(m1);  var m3 := Half(m2);  var m4 := Half(m3);
    var m5 := Half(m4);  var m6 := Half(m5);  var m7 := Half(m6);
    EightHalves(m);
    EvenShift(m);  EvenShift(m1);  EvenShift(m2);  EvenShift(m3);
    EvenShift(m4);  EvenShift(m5);  EvenShift(m6);  EvenShift(m7);
    assert Shifts(m, 8) == Shifts(m2, 6);
    assert Shifts(m2, 6) == Shifts(m4, 4);
    assert Shifts(m4, 4) == Shifts(m6, 2);
  }

  lemma SplitLowByte(x: bv32)
    ensures exists h :: x == X(LowByte(x), h) && LowByte(h) == 0 && Down(h) == Down(x)
  {
    var h := x & 0xFFFFFF00;
    assert x == X(LowByte(x), h);
    assert LowByte(h) == 0 && Down(h) == Down(x);
  }

  lemma ByteBehind(c: bv32, b: byte)
    ensures Down(X(c, Widen(b))) == Down(c)
  {}

  /** The table step of section 8 of RFC 1952 is eight clocks of the serial register. */
  lemma TableStep(c: bv32, b: byte)
    ensures Serial(c, Widen(b), 8) == X(Shifts(LowByte(X(c, Widen(b))), 8), Down(c))
  {
    hide X, Widen, Shifts, Serial, LowByte, Down;
    var x := X(c, Widen(b));
    ByteStep(c, b);
    SplitLowByte(x);
    var h :| x == X(LowByte(x), h) && LowByte(h) == 0 && Down(h) == Down(x);
    ShiftsXor(LowByte(x), h, 8);
    HighBytesMove(h);
    ByteBehind(c, b);
  }

  // ------------------------------------------------------------ the firmware's loops

  lemma IndexRoundTrip(x: bv32)
    ensures 0 <= LowByte(x) as int < 256 && Index(LowByte(x) as int) == LowByte(x)
  {
    WordRoundTrip(x & 0xFF);
  }

  lemma WordRoundTrip(x: bv32)
    requires x <= 0xFF
    ensures 0 <= x as int < 256 && (x as int) as bv32 == x
  {}

  /** The lookup table: entry `i` is the register `i` after eight empty clocks. */
  method BuildTable() returns (table: array<bv32>)
    ensures fresh(table) && table.Length == 256
    ensures forall i :: 0 <= i < 256 ==> table[i] == Shifts(Index(i), 8)
  {
    hide Index, X, Half, Low;
    table := new bv32[256];
    for i := 0 to 256
      invariant forall j :: 0 <= j < i ==> table[j] == Shifts(Index(j), 8)
    {
      var c := Index(i);
      for k := 0 to 8
        invariant Shifts(c, 8 - k) == Shifts(Index(i), 8)
      {
        c := if Low(c) == 1 then X(0xEDB88320, Half(c)) else Half(c);
      }
      table[i] := c;
    }
  }

  /** Table-driven checksum, proved equal to the bit-serial reference for every input and seed. */
  method Crc32(data: seq<byte>, seed: bv32) returns (crc: bv32)
    ensures crc == Crc32Of(data, seed)
  {
    hide X, LowByte, Down, Widen, Index, Serial, Shifts;
    var t := BuildTable();
    var c := X(seed, 0xFFFFFFFF);
    for i := 0 to |data|
      modifies {}
      invariant Register(c, data[i..]) == Register(X(seed, ONES), data)
    {
      var x := X(c, Widen(data[i]));
      IndexRoundTrip(x);
      TableStep(c, data[i]);
      assert data[i..][0] == data[i] && data[i..][1..] == data[i + 1..];
      c := X(t[LowByte(x) as int], Down(c));
    }
    crc := X(c, 0xFFFFFFFF);
  }

  // ------------------------------------------------------------ checksum laws

  lemma {:induction false} RegisterAppend(c: bv32, a: seq<byte>, b: seq<byte>)
    ensures Register(c, a + b) == Register(Register(c, a), b)
    decreases |a|
  {
    hide Serial;
    if a == [] {
      assert a + b == b;
    } else {
      assert (a + b)[1..] == a[1..] + b;
      RegisterAppend(Serial(c, Widen(a[0]), 8), a[1..], b);
    }
  }

  /** A checksum can be continued: the checksum of a prefix seeds the rest. */
  lemma Continue(a: seq<byte>, b: seq<byte>, seed: bv32)
    ensures Crc32Of(a + b, seed) == Crc32Of(b, Crc32Of(a, seed))
  {
    hide X, Register;
    RegisterAppend(X(seed, ONES), a, b);
    Twice(Register(X(seed, ONES), a), ONES);
  }

  /** Registers that differ keep differing through any common suffix. */
  lemma {:induction false} DifferenceSurvives(a: bv32, b: bv32, s: seq<byte>)
    requires a != b
    ensures Register(a, s) != Register(b, s)
    decreases |s|
  {
    hide X, Serial, Widen, Shifts;
    if s != [] {
      StepsDiffer(a, b, s[0], s[0]);
      Self(Widen(s[0]));
      Zero(X(a, b));
      Apart(a, b);
      ShiftsZero(X(a, b), 8);
      var (a', b') := (Serial(a, Widen(s[0]), 8), Serial(b, Widen(s[0]), 8));
      Apart(a', b');
      DifferenceSurvives(a', b', s[1..]);
    }
  }

  /** The register difference after one byte depends only on the differences before it. */
  lemma StepsDiffer(a: bv32, b: bv32, s: byte, t: byte)
    ensures X(Serial(a, Widen(s), 8), Serial(b, Widen(t), 8)) == Shifts(X(X(a, b), X(Widen(s), Widen(t))), 8)
  {
    hide X, Serial, Widen, Shifts;
    ByteStep(a, s);
    ByteStep(b, t);
    ShiftsXor(X(a, Widen(s)), X(b, Widen(t)), 8);
    Shuffle(a, b, Widen(s), Widen(t));
  }

  lemma NoShift(c: bv32)
    ensures Shifts(c, 0) == c
  {}

  /** Byte differences read as a little-endian word (only the low four count). */
  function Word(s: seq<byte>, t: seq<byte>): bv32
    requires |s| == |t|
  {
    if s == [] then 0 else X(X(Widen(s[0]), Widen(t[0])), Up(Word(s[1..], t[1..])))
  }

  /** `w` uses at most its low `n` bytes. */
  predicate Bytes(w: bv32, n: nat) {
    if n == 0 then w == 0 else if n == 1 then w <= 0xFF else if n == 2 then w <= 0xFFFF else n > 3 || w <= 0xFFFFFF
  }

  lemma WordGrows(s: byte, t: byte, w: bv32, n: nat)
    requires n < 3 && Bytes(w, n)
    ensures Bytes(X(X(Widen(s), Widen(t)), Up(w)), n + 1)
  {}

  lemma WordBound(s: seq<byte>, t: seq<byte>)
    requires |s| == |t| <= 3
    ensures Bytes(Word(s, t), |s|)
    decreases |s|
  {
    hide X, Widen, Bytes, Up;
    if s != [] {
      WordBound(s[1..], t[1..]);
      WordGrows(s[0], t[0], Word(s[1..], t[1..]), |s| - 1);
    } else {
      NoBytes();
    }
  }

  lemma NoBytes()
    ensures Bytes(0, 0)
  {}

  lemma BytesBelowFour(w: bv32, n: nat)
    requires n <= 3 && Bytes(w, n)
    ensures Bytes(w, 3)
  {}

  lemma WordSplits(s: byte, t: byte, w: bv32)
    requires Bytes(w, 3) && X(X(Widen(s), Widen(t)), Up(w)) == 0
    ensures s == t && w == 0
  {}

  lemma {:induction false} WordZero(s: seq<byte>, t: seq<byte>)
    requires |s| == |t| <= 4 && Word(s, t) == 0
    ensures s == t
    decreases |s|
  {
    hide X, Widen, Up, Bytes;
    if s != [] {
      WordBound(s[1..], t[1..]);
      BytesBelowFour(Word(s[1..], t[1..]), |s| - 1);
      WordSplits(s[0], t[0], Word(s[1..], t[1..]));
      WordZero(s[1..], t[1..]);
      assert s == [s[0]] + s[1..] && t == [t[0]] + t[1..];
    }
  }

  lemma MoveBack(w: bv32)
    requires Bytes(w, 3)
    ensures LowByte(Up(w)) == 0 && Down(Up(w)) == w
  {}

  /**
   * Over at most four bytes the register difference is the starting difference XOR the
   * byte differences read as one word, clocked on: nothing can cancel in between.
   */
  lemma {:induction false} DifferenceOfWindow(a: bv32, b: bv32, s: seq<byte>, t: seq<byte>)
    requires |s| == |t| <= 4
    ensures X(Register(a, s), Register(b, t)) == Shifts(X(X(a, b), Word(s, t)), 8 * |s|)
    decreases |s|
  {
    hide X, Widen, Serial, Shifts, Up, Down, LowByte, Bytes;
    var d := X(a, b);
    if s == [] {
      Zero(d);
      assert Shifts(d, 0) == d by { NoShift(d); }
    } else {
      var head := X(d, X(Widen(s[0]), Widen(t[0])));
      var rest := Word(s[1..], t[1..]);
      WordBound(s[1..], t[1..]);
      BytesBelowFour(rest, |s| - 1);
      MoveBack(rest);
      Assoc(d, X(Widen(s[0]), Widen(t[0])), Up(rest));
      ShiftsXor(head, Up(rest), 8);
      HighBytesMove(Up(rest));
      ShiftsAdd(X(head, Up(rest)), 8, 8 * |s[1..]|);
      StepsDiffer(a, b, s[0], t[0]);
      DifferenceOfWindow(Serial(a, Widen(s[0]), 8), Serial(b, Widen(t[0]), 8), s[1..], t[1..]);
    }
  }

  /** Any non-zero change confined to four consecutive bytes changes the checksum. */
  lemma BurstDetected(p: seq<byte>, s: seq<byte>, t: seq<byte>, q: seq<byte>, seed: bv32)
    requires |s| == |t| <= 4 && s != t
    ensures Crc32Of(p + s + q, seed) != Crc32Of(p + t + q, seed)
  {
    hide X, Register, Shifts, Word;
    var i := X(seed, ONES);
    var c := Register(i, p);
    RegisterAppend(i, p + s, q);
    RegisterAppend(i, p + t, q);
    RegisterAppend(i, p, s);
    RegisterAppend(i, p, t);
    var (a, b) := (Register(c, s), Register(c, t));
    DifferenceOfWindow(c, c, s, t);
    Self(c);
    Comm(0, Word(s, t));
    Zero(Word(s, t));
    ShiftsZero(Word(s, t), 8 * |s|);
    Apart(a, b);
    if a == b {
      WordZero(s, t);
    }
    DifferenceSurvives(a, b, q);
    Twice(Register(a, q), ONES);
    Twice(Register(b, q), ONES);
  }

  // ------------------------------------------------------------ the check value

  /** Eight clocks, written out. */
  function Eight(c: bv32): bv32 { Shift(Shift(Shift(Shift(Shift(Shift(Shift(Shift(c)))))))) }

  lemma Clocked(c: bv32, b: byte, t: bv32)
    requires Eight(X(c, Widen(b))) == t
    ensures Serial(c, Widen(b), 8) == t
  {
    ByteStep(c, b);
    hide Shift, X, Widen, Serial;
    var x := X(c, Widen(b));
    assert Shifts(x, 8) == Eight(x);
  }

  lemma RegisterNone(c: bv32)
    ensures Register(c, []) == c
  {}

  lemma RegisterStep(c: bv32, s: seq<byte>, i: nat)
    requires i < |s|
    ensures Register(c, s[i..]) == Register(Serial(c, Widen(s[i]), 8), s[i + 1..])
  {
    hide Serial;
    assert s[i..][1..] == s[i + 1..];
  }

  lemma Digits123()
    ensures Serial(ONES, Widen(0x31), 8) == 0x7C231048
    ensures Serial(0x7C231048, Widen(0x32), 8) == 0xB0ACBB32
    ensures Serial(0xB0ACBB32, Widen(0x33), 8) == 0x77B79C2D
  {
    Clocked(0xFFFFFFFF, 0x31, 0x7C231048);
    Clocked(0x7C231048, 0x32, 0xB0ACBB32);
    Clocked(0xB0ACBB32, 0x33, 0x77B79C2D);
    hide Serial;
  }

  lemma Digits456()
    ensures Serial(0x77B79C2D, Widen(0x34), 8) == 0x641C1F5C
    ensures Serial(0x641C1F5C, Widen(0x35), 8) == 0x340AC5E3
    ensures Serial(0x340AC5E3, Widen(0x36), 8) == 0xF68D2C9E
  {
    Clocked(0x77B79C2D, 0x34, 0x641C1F5C);
    Clocked(0x641C1F5C, 0x35, 0x340AC5E3);
    Clocked(0x340AC5E3, 0x36, 0xF68D2C9E);
    hide Serial;
  }

  lemma Digits789()
    ensures Serial(0xF68D2C9E, Widen(0x37), 8) == 0xAFFC9660
    ensures Serial(0xAFFC9660, Widen(0x38), 8) == 0x651F2550
    ensures Serial(0x651F2550, Widen(0x39), 8) == 0x340BC6D9
  {
    Clocked(0xF68D2C9E, 0x37, 0xAFFC9660);
    Clocked(0xAFFC9660, 0x38, 0x651F2550);
    Clocked(0x651F2550, 0x39, 0x340BC6D9);
    hide Serial;
  }

  lemma DigitsClocked(s: seq<byte>)
    requires s == [0x31, 0x32, 0x33, 0x34, 0x35, 0x36, 0x37, 0x38, 0x39]
    ensures Register(ONES, s) == 0x340BC6D9
  {
    hide Serial, Widen, Register;
    RegisterNone(0x340BC6D9);
    Digits123();
    Digits456();
    Digits789();
    RegisterStep(ONES, s, 0);
    RegisterStep(0x7C231048, s, 1);
    RegisterStep(0xB0ACBB32, s, 2);
    RegisterStep(0x77B79C2D, s, 3);
    RegisterStep(0x641C1F5C, s, 4);
    RegisterStep(0x340AC5E3, s, 5);
    RegisterStep(0xF68D2C9E, s, 6);
    RegisterStep(0xAFFC9660, s, 7);
    RegisterStep(0x651F2550, s, 8);
    assert s[0..] == s && s[9..] == [];
  }

  /** The standard check value: the CRC of the nine digits. */
  lemma CheckValue(s: seq<byte>)
    requires s == [0x31, 0x32, 0x33, 0x34, 0x35, 0x36, 0x37, 0x38, 0x39]
    ensures Crc32Of(s, 0) == 0xCBF43926
  {
    hide Register, Serial;
    DigitsClocked(s);
  }
}
