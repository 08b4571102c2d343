/**
  What the encoder probe's child process reports, and the bytes it is reported as.
*/
module ProbeSpec {
  import opened LittleEndian
  import opened Wrappers

  const PAYLOAD_LIMIT: nat := 262144

  type Wide = x: int | 0 <= x < 0x1_0000
  datatype Encoder = Encoder(name: seq<Wide>, id: seq<Wide>)
  datatype Rates = Rates(bitrate: bool, quality: bool)
  datatype Codec = Codec(container: bool, software: bool, hardware: seq<Encoder>, hardwareRates: Rates, softwareRates: Rates)
  datatype Taken<T> = Taken(value: T, rest: seq<Byte>)

  // ---- writing ----

  function WideBytes(s: seq<Wide>): (bytes: seq<Byte>)
    ensures |bytes| == 2 * |s|
  {
    if s == [] then [] else Little(s[0], 2) + WideBytes(s[1..])
  }

  function Text(s: seq<Wide>): seq<Byte> {
    Little(|s|, 4) + WideBytes(s)
  }

  function Encoders(es: seq<Encoder>): seq<Byte> {
    if es == [] then [] else Text(es[0].name) + Text(es[0].id) + Encoders(es[1..])
  }

  /** A number from its binary digits, lowest first. */
  function NumberOf(bits: seq<bool>): (n: nat)
    ensures n < TwoTo(|bits|)
  {
    if bits == [] then 0 else (if bits[0] then 1 else 0) + 2 * NumberOf(bits[1..])
  }

  function TwoTo(count: nat): nat { if count == 0 then 1 else 2 * TwoTo(count - 1) }

  lemma SixBits()
    ensures TwoTo(6) == 64
  {
  }

  function Flags(c: Codec): (flags: nat)
    ensures flags <= 63
  {
    SixBits();
    NumberOf([c.container, c.software, c.hardwareRates.bitrate, c.hardwareRates.quality, c.softwareRates.bitrate, c.softwareRates.quality])
  }

  function CodecBytes(c: Codec): seq<Byte> {
    Little(Flags(c), 4) + Little(|c.hardware|, 4) + Encoders(c.hardware)
  }

  function All(cs: seq<Codec>): seq<Byte> {
    if cs == [] then [] else CodecBytes(cs[0]) + All(cs[1..])
  }

  // ---- the limits both sides check ----

  predicate SizedText(s: seq<Wide>) { |s| <= 4096 }

  predicate SizedEncoder(e: Encoder) { SizedText(e.name) && SizedText(e.id) }

  predicate SizedEncoders(es: seq<Encoder>) {
    forall i :: 0 <= i < |es| ==> SizedEncoder(es[i])
  }

  predicate SizedCodec(c: Codec) { |c.hardware| <= 64 && SizedEncoders(c.hardware) }

  predicate Sized(cs: seq<Codec>) {
    forall i :: 0 <= i < |cs| ==> SizedCodec(cs[i])
  }

  // ---- reading ----

  function TakeNumber(b: seq<Byte>): Option<Taken<nat>> {
    if |b| < 4 then None else Some(Taken(Value(b[..4]), b[4..]))
  }

  function Pair(low: int, high: int): int { low + 256 * high }

  function Widen(b: seq<Byte>): (s: seq<Wide>)
    requires |b| % 2 == 0
    ensures 2 * |s| == |b|
  {
    if b == [] then [] else [Pair(b[0], b[1])] + Widen(b[2..])
  }

  function TakeText(b: seq<Byte>): Option<Taken<seq<Wide>>> {
    match TakeNumber(b)
    case None => None
    case Some(n) =>
      if n.value > 4096 || 2 * n.value > |n.rest| then None
      else Some(Taken(Widen(n.rest[..2 * n.value]), n.rest[2 * n.value..]))
  }

  function TakeEncoder(b: seq<Byte>): Option<Taken<Encoder>> {
    match TakeText(b)
    case None => None
    case Some(name) =>
      match TakeText(name.rest)
      case None => None
      case Some(id) => Some(Taken(Encoder(name.value, id.value), id.rest))
  }

  function TakeEncoders(count: nat, b: seq<Byte>): Option<Taken<seq<Encoder>>> {
    if count == 0 then Some(Taken([], b))
    else
      match TakeEncoder(b)
      case None => None
      case Some(first) =>
        match TakeEncoders(count - 1, first.rest)
        case None => None
        case Some(others) => Some(Taken([first.value] + others.value, others.rest))
  }

  function BitsOf(n: nat, count: nat): (bits: seq<bool>)
    ensures |bits| == count
  {
    if count == 0 then [] else [n % 2 == 1] + BitsOf(n / 2, count - 1)
  }

  function CodecOf(flags: nat, hardware: seq<Encoder>): Codec {
    var bits := BitsOf(flags, 6);
    Codec(bits[0], bits[1], hardware, Rates(bits[2], bits[3]), Rates(bits[4], bits[5]))
  }

  function TakeCodec(b: seq<Byte>): Option<Taken<Codec>> {
    match TakeNumber(b)
    case None => None
    case Some(flags) =>
      if flags.value > 63 then None
      else
        match TakeNumber(flags.rest)
        case None => None
        case Some(count) =>
          if count.value > 64 then None
          else
            match TakeEncoders(count.value, count.rest)
            case None => None
            case Some(es) => Some(Taken(CodecOf(flags.value, es.value), es.rest))
  }

  function TakeCodecs(count: nat, b: seq<Byte>): Option<Taken<seq<Codec>>> {
    if count == 0 then Some(Taken([], b))
    else
      match TakeCodec(b)
      case None => None
      case Some(first) =>
        match TakeCodecs(count - 1, first.rest)
        case None => None
        case Some(others) => Some(Taken([first.value] + others.value, others.rest))
  }

  /** Three codecs and nothing after them. */
  function Parse(b: seq<Byte>): Option<seq<Codec>> {
    match TakeCodecs(3, b)
    case None => None
    case Some(all) => if all.rest == [] then Some(all.value) else None
  }

  // ---- reading undoes writing ----

  lemma NumberRoundTrip(n: nat, rest: seq<Byte>)
    requires n < 0x1_0000_0000
    ensures TakeNumber(Little(n, 4) + rest) == Some(Taken(n, rest))
  {
    Ranges();
    ValueOfLittle(n, 4);
    assert (Little(n, 4) + rest)[..4] == Little(n, 4);
  }

  lemma PairBytes(low: Byte, high: Byte)
    ensures Pair(low, high) < 0x1_0000 && Little(Pair(low, high), 2) == [low, high]
  {
  }

  lemma WideBytesJoin(w: Wide, s: seq<Wide>)
    ensures WideBytes([w] + s) == Little(w, 2) + WideBytes(s)
  {
  }

  lemma {:induction false} WideRoundTrip(s: seq<Wide>)
    ensures Widen(WideBytes(s)) == s
  {
    if s != [] {
      WideRoundTrip(s[1..]);
      assert WideBytes(s)[2..] == WideBytes(s[1..]);
      assert Little(s[0], 2) == [s[0] % 256, s[0] / 256 % 256];
    }
  }

  lemma TextRoundTrip(s: seq<Wide>, rest: seq<Byte>)
    requires SizedText(s)
    ensures TakeText(Text(s) + rest) == Some(Taken(s, rest))
  {
    NumberRoundTrip(|s|, WideBytes(s) + rest);
    WideRoundTrip(s);
    assert Text(s) + rest == Little(|s|, 4) + (WideBytes(s) + rest);
    assert (WideBytes(s) + rest)[..2 * |s|] == WideBytes(s);
  }

  lemma EncodersJoin(e: Encoder, es: seq<Encoder>)
    ensures Encoders([e] + es) == Text(e.name) + Text(e.id) + Encoders(es)
  {
  }

  lemma EncoderRoundTrip(e: Encoder, rest: seq<Byte>)
    requires SizedEncoder(e)
    ensures TakeEncoder(Text(e.name) + Text(e.id) + rest) == Some(Taken(e, rest))
  {
    hide Text, TakeText, SizedText;
    TextRoundTrip(e.id, rest);
    TextRoundTrip(e.name, Text(e.id) + rest);
    Regroup(Text(e.name), Text(e.id), rest);
  }

  lemma EncodersStep(count: nat, b: seq<Byte>, e: Encoder, es: seq<Encoder>, middle: seq<Byte>, rest: seq<Byte>)
    requires TakeEncoder(b) == Some(Taken(e, middle)) && TakeEncoders(count, middle) == Some(Taken(es, rest))
    ensures TakeEncoders(count + 1, b) == Some(Taken([e] + es, rest))
  {
    hide TakeEncoder;
  }

  lemma {:induction false} EncodersRoundTrip(es: seq<Encoder>, rest: seq<Byte>)
    requires SizedEncoders(es)
    ensures TakeEncoders(|es|, Encoders(es) + rest) == Some(Taken(es, rest))
  {
    if es == [] {
      assert Encoders(es) + rest == rest;
    } else {
      EncodersRoundTrip(es[1..], rest);
      hide *;
      var first, more := Text(es[0].name) + Text(es[0].id), Encoders(es[1..]) + rest;
      EncoderRoundTrip(es[0], more);
      EncodersStep(|es[1..]|, first + more, es[0], es[1..], more, rest);
      EncodersJoin(es[0], es[1..]);
      Regroup(first, Encoders(es[1..]), rest);
      assert es == [es[0]] + es[1..];
    }
  }

  lemma {:induction false} BitsOfNumber(bits: seq<bool>)
    ensures BitsOf(NumberOf(bits), |bits|) == bits
  {
    if bits != [] { BitsOfNumber(bits[1..]); }
  }

  lemma FlagsRoundTrip(c: Codec)
    ensures CodecOf(Flags(c), c.hardware) == c
  {
    hide NumberOf, BitsOf;
    BitsOfNumber([c.container, c.software, c.hardwareRates.bitrate, c.hardwareRates.quality,
                  c.softwareRates.bitrate, c.softwareRates.quality]);
  }

  lemma CodecRoundTrip(c: Codec, rest: seq<Byte>)
    requires SizedCodec(c)
    ensures TakeCodec(CodecBytes(c) + rest) == Some(Taken(c, rest))
  {
    hide Flags, CodecOf, TakeNumber, TakeEncoders, SizedEncoders, Encoders;
    FlagsRoundTrip(c);
    var tail := Encoders(c.hardware) + rest;
    EncodersRoundTrip(c.hardware, rest);
    NumberRoundTrip(|c.hardware|, tail);
    NumberRoundTrip(Flags(c), Little(|c.hardware|, 4) + tail);
    assert CodecBytes(c) + rest == Little(Flags(c), 4) + (Little(|c.hardware|, 4) + tail);
  }

  lemma AllJoin(c: Codec, cs: seq<Codec>)
    ensures All([c] + cs) == CodecBytes(c) + All(cs)
  {
  }

  lemma CodecsStep(count: nat, b: seq<Byte>, c: Codec, cs: seq<Codec>, middle: seq<Byte>, rest: seq<Byte>)
    requires TakeCodec(b) == Some(Taken(c, middle)) && TakeCodecs(count, middle) == Some(Taken(cs, rest))
    ensures TakeCodecs(count + 1, b) == Some(Taken([c] + cs, rest))
  {
    hide TakeCodec;
  }

  lemma {:induction false} CodecsRoundTrip(cs: seq<Codec>, rest: seq<Byte>)
    requires Sized(cs)
    ensures TakeCodecs(|cs|, All(cs) + rest) == Some(Taken(cs, rest))
  {
    if cs == [] {
      assert All(cs) + rest == rest;
    } else {
      CodecsRoundTrip(cs[1..], rest);
      hide *;
      var more := All(cs[1..]) + rest;
      CodecRoundTrip(cs[0], more);
      CodecsStep(|cs[1..]|, CodecBytes(cs[0]) + more, cs[0], cs[1..], more, rest);
      AllJoin(cs[0], cs[1..]);
      Regroup(CodecBytes(cs[0]), All(cs[1..]), rest);
      assert cs == [cs[0]] + cs[1..];
    }
  }

  /** Everything the writer accepts comes back. */
  lemma DecodeEncode(cs: seq<Codec>)
    requires |cs| == 3 && Sized(cs)
    ensures Parse(All(cs)) == Some(cs)
  {
    CodecsRoundTrip(cs, []);
    assert All(cs) + [] == All(cs);
  }

  // ---- writing undoes reading ----

  lemma NumberCanonical(b: seq<Byte>)
    ensures TakeNumber(b).Some? ==> b == Little(TakeNumber(b).value.value, 4) + TakeNumber(b).value.rest
  {
    if |b| >= 4 { LittleOfValue(b[..4]); }
  }

  lemma {:induction false} WideCanonical(b: seq<Byte>)
    requires |b| % 2 == 0
    ensures WideBytes(Widen(b)) == b
  {
    if b != [] {
      hide Little, Pair, WideBytes;
      WideCanonical(b[2..]);
      PairBytes(b[0], b[1]);
      WideBytesJoin(Pair(b[0], b[1]), Widen(b[2..]));
      assert b == [b[0], b[1]] + b[2..];
    }
  }

  lemma TextCanonical(b: seq<Byte>)
    ensures TakeText(b).Some? ==>
              SizedText(TakeText(b).value.value) && b == Text(TakeText(b).value.value) + TakeText(b).value.rest
  {
    hide Little, Value, Widen, WideBytes, TakeNumber;
    if TakeText(b).Some? {
      NumberCanonical(b);
      var n := TakeNumber(b).value;
      var wide, rest := n.rest[..2 * n.value], n.rest[2 * n.value..];
      WideCanonical(wide);
      assert n.rest == wide + rest;
      Regroup(Little(n.value, 4), wide, rest);
    }
  }

  lemma EncoderCanonical(b: seq<Byte>)
    ensures var t := TakeEncoder(b); t.Some? ==>
              SizedEncoder(t.value.value) && b == Text(t.value.value.name) + Text(t.value.value.id) + t.value.rest
  {
    hide Text, TakeText;
    TextCanonical(b);
    if TakeText(b).Some? { TextCanonical(TakeText(b).value.rest); }
  }

  lemma NoEncoders(b: seq<Byte>, es: seq<Encoder>, rest: seq<Byte>)
    requires TakeEncoders(0, b) == Some(Taken(es, rest))
    ensures es == [] && SizedEncoders(es) && b == Encoders(es) + rest
  {
  }

  lemma SizedJoin(e: Encoder, es: seq<Encoder>)
    requires SizedEncoder(e) && SizedEncoders(es)
    ensures SizedEncoders([e] + es)
  {
  }

  lemma EncodersWhole(b: seq<Byte>, e: Encoder, es: seq<Encoder>, rest: seq<Byte>)
    requires b == Text(e.name) + Text(e.id) + (Encoders(es) + rest)
    ensures b == Encoders([e] + es) + rest
  {
  }

  lemma EncodersUnstep(count: nat, b: seq<Byte>, es: seq<Encoder>, rest: seq<Byte>)
    returns (first: Taken<Encoder>, others: seq<Encoder>)
    requires count > 0 && TakeEncoders(count, b) == Some(Taken(es, rest))
    ensures TakeEncoder(b) == Some(first) && TakeEncoders(count - 1, first.rest) == Some(Taken(others, rest))
    ensures es == [first.value] + others
  {
    hide TakeEncoder;
    first := TakeEncoder(b).value;
    others := TakeEncoders(count - 1, first.rest).value.value;
  }

  lemma {:induction false} EncodersCanonical(count: nat, b: seq<Byte>, es: seq<Encoder>, rest: seq<Byte>)
    requires TakeEncoders(count, b) == Some(Taken(es, rest))
    ensures |es| == count && SizedEncoders(es) && b == Encoders(es) + rest
  {
    hide *;
    if count == 0 {
      NoEncoders(b, es, rest);
    } else {
      var first, others := EncodersUnstep(count, b, es, rest);
      EncoderCanonical(b);
      EncodersCanonical(count - 1, first.rest, others, rest);
      EncodersWhole(b, first.value, others, rest);
      SizedJoin(first.value, others);
    }
  }

  lemma {:induction false} NumberOfBits(n: nat, count: nat)
    requires n < TwoTo(count)
    ensures NumberOf(BitsOf(n, count)) == n
  {
    if count > 0 {
      NumberOfBits(n / 2, count - 1);
      assert BitsOf(n, count)[1..] == BitsOf(n / 2, count - 1);
    }
  }

  lemma FlagsCanonical(flags: nat, hardware: seq<Encoder>)
    requires flags <= 63
    ensures Flags(CodecOf(flags, hardware)) == flags
  {
    var bits := BitsOf(flags, 6);
    SixBits();
    NumberOfBits(flags, 6);
    assert [bits[0], bits[1], bits[2], bits[3], bits[4], bits[5]] == bits;
    hide NumberOf, BitsOf;
  }

  lemma CodecCanonical(b: seq<Byte>, c: Codec, rest: seq<Byte>)
    requires TakeCodec(b) == Some(Taken(c, rest))
    ensures SizedCodec(c) && b == CodecBytes(c) + rest
  {
    hide Flags, BitsOf, TakeNumber, TakeEncoders, SizedEncoders, Encoders;
    NumberCanonical(b);
    var flags := TakeNumber(b).value;
    NumberCanonical(flags.rest);
    var count := TakeNumber(flags.rest).value;
    EncodersCanonical(count.value, count.rest, c.hardware, rest);
    FlagsCanonical(flags.value, c.hardware);
    var tail := Encoders(c.hardware) + rest;
    assert Little(flags.value, 4) + (Little(count.value, 4) + tail) == CodecBytes(c) + rest;
  }

  lemma CodecsUnstep(count: nat, b: seq<Byte>, cs: seq<Codec>, rest: seq<Byte>)
    returns (first: Taken<Codec>, others: seq<Codec>)
    requires count > 0 && TakeCodecs(count, b) == Some(Taken(cs, rest))
    ensures TakeCodec(b) == Some(first) && TakeCodecs(count - 1, first.rest) == Some(Taken(others, rest))
    ensures cs == [first.value] + others
  {
    hide TakeCodec;
    first := TakeCodec(b).value;
    others := TakeCodecs(count - 1, first.rest).value.value;
  }

  lemma AllWhole(b: seq<Byte>, c: Codec, cs: seq<Codec>, rest: seq<Byte>)
    requires b == CodecBytes(c) + (All(cs) + rest)
    ensures b == All([c] + cs) + rest
  {
  }

  lemma {:induction false} CodecsCanonical(count: nat, b: seq<Byte>, cs: seq<Codec>, rest: seq<Byte>)
    requires TakeCodecs(count, b) == Some(Taken(cs, rest))
    ensures |cs| == count && Sized(cs) && b == All(cs) + rest
  {
    hide TakeCodec, CodecBytes, SizedCodec;
    if count == 0 {
      assert All(cs) == [] && cs == [];
    } else {
      hide TakeCodecs, All;
      var first, others := CodecsUnstep(count, b, cs, rest);
      CodecCanonical(b, first.value, first.rest);
      CodecsCanonical(count - 1, first.rest, others, rest);
      AllWhole(b, first.value, others, rest);
    }
  }

  /** Every payload the reader accepts is exactly what the writer would have sent. */
  lemma EncodeDecode(b: seq<Byte>)
    ensures Parse(b).Some? ==> |Parse(b).value| == 3 && Sized(Parse(b).value) && All(Parse(b).value) == b
  {
    if Parse(b).Some? { CodecsCanonical(3, b, Parse(b).value, []); }
  }

  // ---- the payload byte by byte ----

  /** Where encoder `j` of a list begins, after the list's first byte. */
  function EncoderStart(es: seq<Encoder>, j: nat): nat
    requires j <= |es|
  {
    if j == 0 then 0 else 8 + 2 * |es[0].name| + 2 * |es[0].id| + EncoderStart(es[1..], j - 1)
  }

  /** Where codec `k` begins: every codec has two numbers and its encoders. */
  function CodecStart(cs: seq<Codec>, k: nat): nat
    requires k <= |cs|
  {
    if k == 0 then 0 else 8 + EncoderStart(cs[0].hardware, |cs[0].hardware|) + CodecStart(cs[1..], k - 1)
  }

  /** A string at a place: how many characters, and two bytes for each. */
  ghost predicate TextAt(b: seq<Byte>, at: nat, s: seq<Wide>) {
    && at + 4 + 2 * |s| <= |b| && Number(b, at, 4) == |s|
    && forall i :: 0 <= i < |s| ==> Number(b, at + 4 + 2 * i, 2) == s[i]
  }

  ghost predicate Lies(b: seq<Byte>, at: nat, s: seq<Byte>) {
    at + |s| <= |b| && b[at..at + |s|] == s
  }

  lemma LiesParts(b: seq<Byte>, at: nat, s: seq<Byte>, t: seq<Byte>)
    requires Lies(b, at, s + t)
    ensures Lies(b, at, s) && Lies(b, at + |s|, t)
  {
    var whole := b[at..at + |s| + |t|];
    assert whole[..|s|] == s && whole[|s|..] == t;
    assert b[at..at + |s|] == whole[..|s|] && b[at + |s|..at + |s| + |t|] == whole[|s|..];
  }

  lemma NumberLies(b: seq<Byte>, at: nat, n: nat, size: nat)
    requires Lies(b, at, Little(n, size)) && n < Range(size) && (size == 2 || size == 4)
    ensures at + size <= |b| && Number(b, at, size) == n
  {
    ValueOfLittle(n, size);
    LowestFirst(0, b[at..at + size]);
  }

  lemma {:induction false} WideLies(b: seq<Byte>, at: nat, s: seq<Wide>)
    requires Lies(b, at, WideBytes(s))
    ensures forall i :: 0 <= i < |s| ==> at + 2 * i + 2 <= |b| && Number(b, at + 2 * i, 2) == s[i]
    decreases |s|
  {
    hide Number, Little;
    if s != [] {
      LiesParts(b, at, Little(s[0], 2), WideBytes(s[1..]));
      Ranges();
      NumberLies(b, at, s[0], 2);
      WideLies(b, at + 2, s[1..]);
      forall i | 0 <= i < |s| ensures at + 2 * i + 2 <= |b| && Number(b, at + 2 * i, 2) == s[i] {
        if i > 0 { assert s[1..][i - 1] == s[i] && at + 2 + 2 * (i - 1) == at + 2 * i; }
      }
    }
  }

  lemma TextLies(b: seq<Byte>, at: nat, s: seq<Wide>)
    requires Lies(b, at, Text(s)) && |s| <= 4096
    ensures TextAt(b, at, s) && |Text(s)| == 4 + 2 * |s|
  {
    hide Number, Little;
    LiesParts(b, at, Little(|s|, 4), WideBytes(s));
    Ranges();
    NumberLies(b, at, |s|, 4);
    WideLies(b, at + 4, s);
  }

  lemma {:induction false} EncoderLies(b: seq<Byte>, at: nat, es: seq<Encoder>, j: nat)
    requires Lies(b, at, Encoders(es)) && SizedEncoders(es)
    ensures |Encoders(es)| == EncoderStart(es, |es|)
    ensures j < |es| ==>
              var start := at + EncoderStart(es, j);
              TextAt(b, start, es[j].name) && TextAt(b, start + 4 + 2 * |es[j].name|, es[j].id)
    decreases |es|
  {
    hide Text, TextAt, Lies;
    if es != [] {
      var name, id, rest := Text(es[0].name), Text(es[0].id), Encoders(es[1..]);
      LiesParts(b, at, name + id, rest);
      LiesParts(b, at, name, id);
      TextLies(b, at, es[0].name);
      TextLies(b, at + |name|, es[0].id);
      if j > 0 { EncoderLies(b, at + |name + id|, es[1..], j - 1); } else { EncoderLies(b, at + |name + id|, es[1..], 0); }
    }
  }

  /** The flags as the sum of their bits. */
  lemma FlagsSum(c: Codec)
    ensures Flags(c) == (if c.container then 1 else 0) + (if c.software then 2 else 0)
                        + (if c.hardwareRates.bitrate then 4 else 0) + (if c.hardwareRates.quality then 8 else 0)
                        + (if c.softwareRates.bitrate then 16 else 0) + (if c.softwareRates.quality then 32 else 0)
  {
    hide NumberOf;
    SumOfSix(c.container, c.software, c.hardwareRates.bitrate, c.hardwareRates.quality, c.softwareRates.bitrate, c.softwareRates.quality);
  }

  function Bit(bit: bool): nat { if bit then 1 else 0 }

  lemma SumOfSix(a: bool, b: bool, c: bool, d: bool, e: bool, f: bool)
    ensures NumberOf([a, b, c, d, e, f]) == Bit(a) + 2 * Bit(b) + 4 * Bit(c) + 8 * Bit(d) + 16 * Bit(e) + 32 * Bit(f)
  {
    hide NumberOf, Bit;
    OneMoreBit(a, []);
    ThreeMore(d, e, f, []);
    ThreeMore(a, b, c, [d, e, f]);
    assert [d, e, f] + [] == [d, e, f];
    assert [a, b, c] + [d, e, f] == [a, b, c, d, e, f];
  }

  lemma ThreeMore(a: bool, b: bool, c: bool, rest: seq<bool>)
    ensures NumberOf([a, b, c] + rest) == Bit(a) + 2 * Bit(b) + 4 * Bit(c) + 8 * NumberOf(rest)
  {
    hide NumberOf, Bit;
    OneMoreBit(c, rest);
    OneMoreBit(b, [c] + rest);
    OneMoreBit(a, [b] + ([c] + rest));
    assert [a] + ([b] + ([c] + rest)) == [a, b, c] + rest;
  }

  lemma OneMoreBit(bit: bool, bits: seq<bool>)
    ensures NumberOf([bit] + bits) == Bit(bit) + 2 * NumberOf(bits) && NumberOf([]) == 0
  {
    assert ([bit] + bits)[1..] == bits;
  }

  /** Codec by codec: the sum of its flags, how many encoders it has, and each encoder's name and
      identifier, one after another. */
  lemma {:induction false} PayloadLaidOut(b: seq<Byte>, at: nat, cs: seq<Codec>, k: nat, j: nat)
    requires Lies(b, at, All(cs)) && Sized(cs)
    ensures |All(cs)| == CodecStart(cs, |cs|)
    ensures k < |cs| ==>
              var c, start := cs[k], at + CodecStart(cs, k);
              && start + 8 <= |b| && Number(b, start + 4, 4) == |c.hardware|
              && Number(b, start, 4) == (if c.container then 1 else 0) + (if c.software then 2 else 0)
                                        + (if c.hardwareRates.bitrate then 4 else 0) + (if c.hardwareRates.quality then 8 else 0)
                                        + (if c.softwareRates.bitrate then 16 else 0) + (if c.softwareRates.quality then 32 else 0)
              && (j < |c.hardware| ==>
                    var e, place := c.hardware[j], start + 8 + EncoderStart(c.hardware, j);
                    TextAt(b, place, e.name) && TextAt(b, place + 4 + 2 * |e.name|, e.id))
    decreases |cs|
  {
    hide TextAt, Lies, Number, Little, Flags, Encoders, EncoderStart;
    if cs != [] {
      var c := cs[0];
      var flags, count, es, rest := Little(Flags(c), 4), Little(|c.hardware|, 4), Encoders(c.hardware), All(cs[1..]);
      LiesParts(b, at, flags + count + es, rest);
      LiesParts(b, at, flags + count, es);
      LiesParts(b, at, flags, count);
      Ranges();
      FlagsSum(c);
      NumberLies(b, at, Flags(c), 4);
      NumberLies(b, at + 4, |c.hardware|, 4);
      EncoderLies(b, at + 8, c.hardware, j);
      PayloadLaidOut(b, at + |flags + count + es|, cs[1..], if k > 0 then k - 1 else 0, j);
    }
  }
}
