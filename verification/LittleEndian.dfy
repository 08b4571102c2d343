/**
  Numbers as bytes, least significant first: the layout of the probe's result channel and of
  the ZIP format.
*/
module LittleEndian {
  type Byte = x: int | 0 <= x < 256

  /** The low `size` bytes of a number. */
  function Little(value: nat, size: nat): (bytes: seq<Byte>)
    ensures |bytes| == size
  {
    if size == 0 then [] else [value % 256] + Little(value / 256, size - 1)
  }

  function Value(bytes: seq<Byte>): nat {
    if bytes == [] then 0 else bytes[0] + 256 * Value(bytes[1..])
  }

  /** Two and four bytes of a number, and the number of two and four bytes. */
  lemma LowestFirst(n: nat, b: seq<Byte>)
    ensures Little(n, 2)[0] as int == n % 256 && Little(n, 2)[1] as int == n / 256 % 256
    ensures Little(n, 4)[0] as int == n % 256 && Little(n, 4)[1] as int == n / 256 % 256
    ensures Little(n, 4)[2] as int == n / 65536 % 256 && Little(n, 4)[3] as int == n / 16777216 % 256
    ensures |b| == 2 ==> Value(b) == b[0] as int + 256 * (b[1] as int)
    ensures |b| == 4 ==> Value(b) == b[0] as int + 256 * (b[1] as int) + 65536 * (b[2] as int) + 16777216 * (b[3] as int)
  {
    LowTwo(n);
    LowTwo(n / 256 / 256);
    Quarters(n);
    assert Little(n, 4) == Little(n, 2) + Little(n / 256 / 256, 2);
    if |b| == 2 { ValueOfTwo(b); }
    if |b| == 4 {
      ValueOfTwo(b[2..]);
      assert b[1..][1..] == b[2..];
    }
  }

  lemma LowTwo(n: nat)
    ensures Little(n, 2)[0] as int == n % 256 && Little(n, 2)[1] as int == n / 256 % 256
    ensures Little(n, 4) == Little(n, 2) + Little(n / 256 / 256, 2)
  {
    var m := n / 256;
    assert Little(n, 4) == [n % 256] + Little(m, 3) && Little(m, 3) == [m % 256] + Little(m / 256, 2);
    assert Little(n, 2) == [n % 256] + Little(m, 1) && Little(m, 1) == [m % 256] + Little(m / 256, 0);
  }

  lemma ValueOfTwo(b: seq<Byte>)
    requires |b| == 2
    ensures Value(b) == b[0] as int + 256 * (b[1] as int)
  {
    var rest := b[1..];
    assert rest[1..] == [] && Value(rest[1..]) == 0 && rest[0] == b[1];
    assert Value(rest) == rest[0] as int;
  }

  lemma Quarters(n: nat)
    ensures n / 256 / 256 == n / 65536 && n / 256 / 256 / 256 == n / 16777216
  {
  }

  /** The number that two or four bytes at a place stand for. */
  function Number(b: seq<Byte>, at: nat, size: nat): nat
    requires at + size <= |b| && (size == 2 || size == 4)
  {
    if size == 2 then b[at] as int + 256 * (b[at + 1] as int)
    else b[at] as int + 256 * (b[at + 1] as int) + 65536 * (b[at + 2] as int) + 16777216 * (b[at + 3] as int)
  }

  function Range(size: nat): nat {
    if size == 0 then 1 else 256 * Range(size - 1)
  }

  lemma {:induction false} ValueOfLittle(value: nat, size: nat)
    requires value < Range(size)
    ensures Value(Little(value, size)) == value
  {
    if size > 0 {
      ValueOfLittle(value / 256, size - 1);
      assert Little(value, size)[1..] == Little(value / 256, size - 1);
    }
  }

  lemma {:induction false} LittleOfValue(bytes: seq<Byte>)
    ensures Little(Value(bytes), |bytes|) == bytes
    ensures Value(bytes) < Range(|bytes|)
  {
    if bytes != [] { LittleOfValue(bytes[1..]); }
  }

  lemma Ranges()
    ensures Range(2) == 0x1_0000 && Range(4) == 0x1_0000_0000
  {
  }

  lemma Regroup(a: seq<Byte>, b: seq<Byte>, c: seq<Byte>)
    ensures a + (b + c) == a + b + c
  {
  }
}
