/**
  The checksum of a ZIP entry, bit by bit, and why a reader that compares it notices every
  change of one byte.
*/
module Checksum {
  import opened LittleEndian

  const POLYNOMIAL: nat := 0xedb88320
  const TOP: nat := 0x8000_0000
  const ALL_ONES: nat := 0xffff_ffff

  /** Exclusive or, digit by digit. */
  function Xor(a: nat, b: nat): nat {
    if a == 0 && b == 0 then 0 else (a + b) % 2 + 2 * Xor(a / 2, b / 2)
  }

  function Shift(v: nat): nat {
    Xor(v / 2, if v % 2 == 1 then POLYNOMIAL else 0)
  }

  function Shifts(v: nat, count: nat): nat {
    if count == 0 then v else Shift(Shifts(v, count - 1))
  }

  function Update(v: nat, byte: Byte): nat { Shifts(Xor(v, byte), 8) }

  function Register(data: seq<Byte>): nat {
    if data == [] then ALL_ONES else Update(Register(data[..|data| - 1]), data[|data| - 1])
  }

  function CrcOf(data: seq<Byte>): nat { Xor(Register(data), ALL_ONES) }

  method Crc(data: seq<Byte>) returns (crc: nat)
    ensures crc == CrcOf(data)
  {
    var value := ALL_ONES;
    for i := 0 to |data|
      invariant value == Register(data[..i])
    {
      assert data[..i + 1][..i] == data[..i];
      ghost var before := value;
      value := Xor(value, data[i]);
      for bit := 0 to 8
        invariant value == Shifts(Xor(before, data[i]), bit)
      {
        value := Xor(value / 2, if value % 2 == 1 then POLYNOMIAL else 0);
      }
    }
    assert data[..|data|] == data;
    crc := Xor(value, ALL_ONES);
  }

  function Power(k: nat): nat { if k == 0 then 1 else 2 * Power(k - 1) }

  lemma {:induction false} XorBound(a: nat, b: nat, k: nat)
    requires a < Power(k) && b < Power(k)
    ensures Xor(a, b) < Power(k)
  {
    if k > 0 && !(a == 0 && b == 0) { XorBound(a / 2, b / 2, k - 1); }
  }

  /** A number with a higher top digit keeps it. */
  lemma {:induction false} XorTop(a: nat, b: nat, k: nat)
    requires a < Power(k) <= b < Power(k + 1)
    ensures Xor(a, b) >= Power(k)
  {
    if k == 0 {
      assert Power(1) == 2;
      assert a == 0 && b == 1 && Xor(a, b) == 1 + 2 * Xor(0, 0);
    } else {
      XorTop(a / 2, b / 2, k - 1);
    }
  }

  lemma XorDigit(a: nat, c: nat)
    ensures Xor(a, c) % 2 == (a + c) % 2 && Xor(a, c) / 2 == Xor(a / 2, c / 2)
  {
    XorUnfold(a, c);
    hide Xor;
    LowDigit((a + c) % 2, Xor(a / 2, c / 2));
  }

  lemma XorUnfold(a: nat, c: nat)
    ensures Xor(a, c) == (a + c) % 2 + 2 * Xor(a / 2, c / 2)
  {
    if a == 0 && c == 0 { assert Xor(0, 0) == 0; }
  }

  lemma LowDigit(digit: nat, x: nat)
    requires digit < 2
    ensures (digit + 2 * x) % 2 == digit && (digit + 2 * x) / 2 == x
  {
  }

  lemma SameDigit(a: nat, b: nat, c: nat)
    requires (a + c) % 2 == (b + c) % 2 && a / 2 == b / 2
    ensures a == b
  {
    assert a == 2 * (a / 2) + a % 2 && b == 2 * (b / 2) + b % 2;
  }

  lemma {:induction false} XorInjective(a: nat, b: nat, c: nat)
    requires Xor(a, c) == Xor(b, c)
    ensures a == b
    decreases a + b + c
  {
    hide Xor;
    if a + b + c > 0 {
      XorDigit(a, c);
      XorDigit(b, c);
      XorInjective(a / 2, b / 2, c / 2);
      SameDigit(a, b, c);
    }
  }

  lemma {:induction false} XorCommutes(a: nat, b: nat)
    ensures Xor(a, b) == Xor(b, a)
  {
    if a != 0 || b != 0 { XorCommutes(a / 2, b / 2); }
  }

  lemma Powers()
    ensures Power(8) == 256 && Power(31) == TOP && Power(32) == ALL_ONES + 1
  {
    assert Power(4) == 16 && Power(12) == 4096 by { assert Power(8) == 256; assert Power(10) == 1024; }
    assert Power(16) == 0x1_0000 by { assert Power(14) == 0x4000; }
    assert Power(20) == 0x10_0000 by { assert Power(18) == 0x4_0000; }
    assert Power(24) == 0x100_0000 by { assert Power(22) == 0x40_0000; }
    assert Power(28) == 0x1000_0000 by { assert Power(26) == 0x400_0000; }
    assert Power(30) == 0x4000_0000;
  }

  lemma {:induction false} XorZero(a: nat)
    ensures Xor(a, 0) == a
  {
    if a != 0 { XorZero(a / 2); }
  }

  /** The polynomial's top bit is set, so a shifted register tells which digit fell out. */
  lemma ShiftInjective(v: nat, w: nat)
    requires v <= ALL_ONES && w <= ALL_ONES && Shift(v) == Shift(w)
    ensures v == w
  {
    Powers();
    Tell(v);
    Tell(w);
    XorInjective(v / 2, w / 2, if v % 2 == 1 then POLYNOMIAL else 0);
  }

  lemma Tell(v: nat)
    requires v <= ALL_ONES
    ensures Shift(v) <= ALL_ONES && (Shift(v) >= TOP <==> v % 2 == 1)
  {
    hide Xor, Power;
    Powers();
    if v % 2 == 1 {
      XorTop(v / 2, POLYNOMIAL, 31);
      XorBound(v / 2, POLYNOMIAL, 32);
    } else {
      XorZero(v / 2);
    }
  }

  lemma {:induction false} ShiftsInjective(v: nat, w: nat, count: nat)
    requires v <= ALL_ONES && w <= ALL_ONES
    ensures Shifts(v, count) <= ALL_ONES
    ensures Shifts(v, count) == Shifts(w, count) ==> v == w
    decreases count
  {
    if count > 0 {
      ShiftsInjective(v, w, count - 1);
      ShiftsInjective(w, v, count - 1);
      Tell(Shifts(v, count - 1));
      if Shifts(v, count) == Shifts(w, count) { ShiftInjective(Shifts(v, count - 1), Shifts(w, count - 1)); }
    }
  }

  lemma UpdateInjective(v: nat, w: nat, x: Byte, y: Byte)
    requires v <= ALL_ONES && w <= ALL_ONES
    ensures Update(v, x) <= ALL_ONES
    ensures Update(v, x) == Update(w, y) && v == w ==> x == y
    ensures Update(v, x) == Update(w, y) && x == y ==> v == w
  {
    hide Xor, Power, Shifts;
    Powers();
    XorBound(v, x, 32);
    XorBound(w, y, 32);
    ShiftsInjective(Xor(v, x), Xor(w, y), 8);
    if Update(v, x) == Update(w, y) {
      if x == y {
        XorInjective(v, w, x);
      } else if v == w {
        XorCommutes(v, x);
        XorCommutes(w, y);
        XorInjective(x, y, v);
      }
    }
  }

  lemma {:induction false} RegisterBound(data: seq<Byte>)
    ensures Register(data) <= ALL_ONES
  {
    hide Update;
    if data != [] {
      var front, last := data[..|data| - 1], data[|data| - 1];
      RegisterBound(front);
      UpdateInjective(Register(front), Register(front), last, last);
    }
  }

  /** The field of four bytes holds any checksum. */
  lemma CrcBound(data: seq<Byte>)
    ensures CrcOf(data) <= ALL_ONES
  {
    hide Xor, Power;
    Powers();
    RegisterBound(data);
    XorBound(Register(data), ALL_ONES, 32);
  }

  lemma {:induction false} RegisterTellsByte(before: seq<Byte>, x: Byte, y: Byte, after: seq<Byte>)
    ensures Register(before + [x] + after) == Register(before + [y] + after) ==> x == y
  {
    hide Update;
    if after == [] {
      assert before + [x] + after == before + [x] && (before + [x])[..|before|] == before;
      assert before + [y] + after == before + [y] && (before + [y])[..|before|] == before;
      RegisterBound(before);
      UpdateInjective(Register(before), Register(before), x, y);
    } else {
      var front, last := after[..|after| - 1], after[|after| - 1];
      var p, q := before + [x] + front, before + [y] + front;
      assert before + [x] + after == p + [last] && (p + [last])[..|p|] == p;
      assert before + [y] + after == q + [last] && (q + [last])[..|q|] == q;
      RegisterBound(p);
      RegisterBound(q);
      UpdateInjective(Register(p), Register(q), last, last);
      RegisterTellsByte(before, x, y, front);
    }
  }

  /** No change of a single byte leaves the checksum as it was. */
  lemma CrcTellsByte(before: seq<Byte>, x: Byte, y: Byte, after: seq<Byte>)
    ensures CrcOf(before + [x] + after) == CrcOf(before + [y] + after) <==> x == y
  {
    RegisterTellsByte(before, x, y, after);
    if CrcOf(before + [x] + after) == CrcOf(before + [y] + after) {
      XorInjective(Register(before + [x] + after), Register(before + [y] + after), ALL_ONES);
    }
  }

  // ---- known checksums ----

  /** Ones below digit `k` turn the digits there round and leave the higher ones. */
  lemma {:induction false} XorOnes(k: nat, high: nat, low: nat)
    requires low < Power(k)
    ensures Xor(Power(k) - 1, high * Power(k) + low) == high * Power(k) + (Power(k) - 1 - low)
  {
    hide Xor;
    XorUnfold(Power(k) - 1, high * Power(k) + low);
    if k == 0 {
      XorZero(high);
      XorCommutes(0, high);
    } else {
      XorOnes(k - 1, high, low / 2);
      var p := Power(k - 1);
      Doubled(high, p);
      OnesHalf(p, high * p, low);
      LowDigit(1 - low % 2, high * p + (p - 1 - low / 2));
    }
  }

  lemma Doubled(high: nat, p: nat)
    ensures high * (2 * p) == 2 * (high * p)
  {
  }

  lemma OnesHalf(p: nat, above: nat, low: nat)
    requires p > 0 && low < 2 * p
    ensures (2 * p - 1) / 2 == p - 1 && (2 * above + low) / 2 == above + low / 2 && low / 2 < p
    ensures (2 * p - 1 + (2 * above + low)) % 2 == 1 - low % 2
    ensures 2 * above + (2 * p - 1 - low) == 1 - low % 2 + 2 * (above + (p - 1 - low / 2))
  {
  }

  lemma ShiftEven(v: nat)
    requires v % 2 == 0
    ensures Shift(v) == v / 2
  {
    XorZero(v / 2);
  }

  /** Turns that only lose zeros. */
  lemma {:induction false} EvenShifts(w: nat, n: nat)
    ensures w * Power(n) >= 0 && Shifts(w * Power(n), n) == w
    decreases n
  {
    hide Xor, Shift;
    if n > 0 {
      Doubled(w, Power(n - 1));
      assert (2 * w) * Power(n - 1) == w * Power(n);
      EvenShifts(2 * w, n - 1);
      ShiftEven(2 * w);
    }
  }

  lemma MorePowers()
    ensures Power(24) == 0x100_0000 && Power(16) == 0x1_0000
  {
    assert Power(4) == 16 && Power(8) == 256 by { assert Power(6) == 64; }
    assert Power(12) == 4096 by { assert Power(10) == 1024; }
    assert Power(16) == 0x1_0000 by { assert Power(14) == 0x4000; }
    assert Power(20) == 0x10_0000 by { assert Power(18) == 0x4_0000; }
    assert Power(24) == 0x100_0000 by { assert Power(22) == 0x40_0000; }
  }

  /** The checksums of nothing, of the byte 7f and of the bytes ff 7f. */
  lemma KnownChecksums()
    ensures CrcOf([]) == 0 && CrcOf([0x7f]) == 0x12b8_8320 && CrcOf([0xff, 0x7f]) == 0x1247_8320
  {
    hide Xor, Update;
    Powers();
    XorOnes(32, 0, ALL_ONES);
    First7f();
    FirstFf();
    Second7f();
    assert [0x7f][..0] == [] && [0xff][..0] == [] && [0xff, 0x7f][..1] == [0xff];
    XorCommutes(0xed47_7cdf, ALL_ONES);
    XorOnes(32, 0, 0xed47_7cdf);
    XorCommutes(0xedb8_7cdf, ALL_ONES);
    XorOnes(32, 0, 0xedb8_7cdf);
  }

  lemma First7f()
    ensures Update(ALL_ONES, 0x7f) == 0xed47_7cdf
  {
    hide Xor, Shifts, Shift;
    Powers();
    MorePowers();
    SevenDigits();
    XorOnes(32, 0, 0x7f);
    EvenShifts(0x1ff_ffff, 7);
    XorOnes(24, 0xed, 0xb8_8320);
    LastShift(0xffff_ff80, 0x1ff_ffff);
  }

  lemma FirstFf()
    ensures Update(ALL_ONES, 0xff) == 0xff_ffff
  {
    hide Xor, Shifts, Shift;
    Powers();
    XorOnes(32, 0, 0xff);
    EvenShifts(0xff_ffff, 8);
  }

  lemma Second7f()
    ensures Update(0xff_ffff, 0x7f) == 0xedb8_7cdf
  {
    hide Xor, Shifts, Shift;
    MorePowers();
    SevenDigits();
    XorOnes(24, 0, 0x7f);
    EvenShifts(0x1_ffff, 7);
    XorOnes(16, 0xedb8, 0x8320);
    LastShift(0xff_ff80, 0x1_ffff);
  }

  lemma SevenDigits()
    ensures Power(7) == 128
  {
    assert Power(4) == 16;
  }

  lemma LastShift(v: nat, odd: nat)
    requires Shifts(v, 7) == odd && odd % 2 == 1
    ensures Shifts(v, 8) == Xor(odd / 2, POLYNOMIAL)
  {
  }
}
