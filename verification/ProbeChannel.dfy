/**
  The shared memory block through which the encoder probe's child process reports: a cursor
  runs over a payload of fixed size, and both sides check every step against its end.
*/
module ProbeChannel {
  import opened LittleEndian
  import opened ProbeSpec
  import opened Wrappers

  /** A slice cut in two. */
  lemma SliceParts(b: seq<Byte>, from: nat, cut: nat, end: nat)
    requires from <= cut <= end <= |b|
    ensures b[from..end][..cut - from] == b[from..cut] && b[from..end][cut - from..] == b[cut..end]
  {
  }

  lemma {:induction false} EncodersSplit(a: seq<Encoder>, b: seq<Encoder>)
    ensures Encoders(a + b) == Encoders(a) + Encoders(b)
  {
    hide Text;
    if a == [] {
      assert a + b == b;
    } else {
      EncodersSplit(a[1..], b);
      assert (a + b)[1..] == a[1..] + b;
      Regroup(Text(a[0].name) + Text(a[0].id), Encoders(a[1..]), Encoders(b));
    }
  }

  lemma {:induction false} AllSplit(a: seq<Codec>, b: seq<Codec>)
    ensures All(a + b) == All(a) + All(b)
  {
    hide CodecBytes;
    if a == [] {
      assert a + b == b;
    } else {
      AllSplit(a[1..], b);
      assert (a + b)[1..] == a[1..] + b;
      Regroup(CodecBytes(a[0]), All(a[1..]), All(b));
    }
  }

  /** One more encoder: the bytes so far grow by it and stay within the whole list. */
  lemma NextEncoder(es: seq<Encoder>, i: nat)
    requires i < |es|
    ensures Encoders(es[..i + 1]) == Encoders(es[..i]) + Text(es[i].name) + Text(es[i].id)
    ensures |Encoders(es[..i + 1])| <= |Encoders(es)|
  {
    hide Text;
    assert es[..i + 1] == es[..i] + [es[i]] && es == es[..i + 1] + es[i + 1..];
    EncodersSplit(es[..i], [es[i]]);
    EncodersSplit(es[..i + 1], es[i + 1..]);
    EncodersJoin(es[i], []);
    assert [es[i]] + [] == [es[i]];
  }

  lemma NextCodec(cs: seq<Codec>, i: nat)
    requires i < |cs|
    ensures All(cs[..i + 1]) == All(cs[..i]) + CodecBytes(cs[i])
    ensures |All(cs[..i + 1])| <= |All(cs)|
  {
    hide CodecBytes;
    assert cs[..i + 1] == cs[..i] + [cs[i]] && cs == cs[..i + 1] + cs[i + 1..];
    AllSplit(cs[..i], [cs[i]]);
    AllSplit(cs[..i + 1], cs[i + 1..]);
    AllJoin(cs[i], []);
    assert [cs[i]] + [] == [cs[i]];
  }

  /** The list read so far, put before what the rest of the bytes give. */
  function Before<T>(done: seq<T>, others: Option<Taken<seq<T>>>): Option<Taken<seq<T>>> {
    if others.None? then None else Some(Taken(done + others.value.value, others.value.rest))
  }

  lemma EncoderRead(done: seq<Encoder>, count: nat, b: seq<Byte>)
    requires count > 0
    ensures TakeEncoder(b).None? ==> Before(done, TakeEncoders(count, b)).None?
    ensures TakeEncoder(b).Some? ==>
              var e := TakeEncoder(b).value;
              Before(done, TakeEncoders(count, b)) == Before(done + [e.value], TakeEncoders(count - 1, e.rest))
  {
    hide TakeEncoder;
    if TakeEncoder(b).Some? {
      var e := TakeEncoder(b).value;
      if TakeEncoders(count - 1, e.rest).Some? {
        var others := TakeEncoders(count - 1, e.rest).value.value;
        assert done + ([e.value] + others) == done + [e.value] + others;
      }
    }
  }

  lemma CodecRead(done: seq<Codec>, count: nat, b: seq<Byte>)
    requires count > 0
    ensures TakeCodec(b).None? ==> Before(done, TakeCodecs(count, b)).None?
    ensures TakeCodec(b).Some? ==>
              var c := TakeCodec(b).value;
              Before(done, TakeCodecs(count, b)) == Before(done + [c.value], TakeCodecs(count - 1, c.rest))
  {
    hide TakeCodec;
    if TakeCodec(b).Some? {
      var c := TakeCodec(b).value;
      if TakeCodecs(count - 1, c.rest).Some? {
        var others := TakeCodecs(count - 1, c.rest).value.value;
        assert done + ([c.value] + others) == done + [c.value] + others;
      }
    }
  }

  class Exchange {
    var complete: int
    var bytes: nat
    const payload: array<Byte>

    constructor ()
      ensures payload.Length == PAYLOAD_LIMIT && complete == 0 && fresh(payload)
    {
      complete, bytes := 0, 0;
      payload := new Byte[PAYLOAD_LIMIT];
    }

    // ---- the child's side ----

    method Put(data: seq<Byte>, cursor: nat) returns (ok: bool, next: nat)
      requires payload.Length == PAYLOAD_LIMIT && cursor <= PAYLOAD_LIMIT
      modifies payload
      ensures ok <==> cursor + |data| <= PAYLOAD_LIMIT
      ensures ok ==> next == cursor + |data| && payload[..next] == old(payload[..cursor]) + data
    {
      if |data| > PAYLOAD_LIMIT - cursor { return false, cursor; }
      forall i | 0 <= i < |data| {
        payload[cursor + i] := data[i];
      }
      assert payload[..cursor] == old(payload[..cursor]) && payload[cursor..cursor + |data|] == data;
      return true, cursor + |data|;
    }

    method PutText(s: seq<Wide>, cursor: nat) returns (ok: bool, next: nat)
      requires payload.Length == PAYLOAD_LIMIT && cursor <= PAYLOAD_LIMIT
      modifies payload
      ensures ok <==> SizedText(s) && cursor + |Text(s)| <= PAYLOAD_LIMIT
      ensures ok ==> next == cursor + |Text(s)| && payload[..next] == old(payload[..cursor]) + Text(s)
    {
      if |s| > 4096 { return false, cursor; }
      ok, next := Put(Little(|s|, 4), cursor);
      if ok { ok, next := Put(WideBytes(s), next); }
    }

    method PutEncoder(e: Encoder, cursor: nat) returns (ok: bool, next: nat)
      requires payload.Length == PAYLOAD_LIMIT && cursor <= PAYLOAD_LIMIT
      modifies payload
      ensures ok <==> SizedEncoder(e) && cursor + |Text(e.name)| + |Text(e.id)| <= PAYLOAD_LIMIT
      ensures ok ==> next == cursor + |Text(e.name)| + |Text(e.id)|
      ensures ok ==> payload[..next] == old(payload[..cursor]) + Text(e.name) + Text(e.id)
    {
      hide Text;
      ok, next := PutText(e.name, cursor);
      if ok { ok, next := PutText(e.id, next); }
    }

    method PutEncoders(es: seq<Encoder>, cursor: nat) returns (ok: bool, next: nat)
      requires payload.Length == PAYLOAD_LIMIT && cursor <= PAYLOAD_LIMIT
      modifies payload
      ensures ok <==> SizedEncoders(es) && cursor + |Encoders(es)| <= PAYLOAD_LIMIT
      ensures ok ==> next == cursor + |Encoders(es)| && payload[..next] == old(payload[..cursor]) + Encoders(es)
    {
      hide Encoders, Text, SizedEncoder;
      ghost var before := payload[..cursor];
      NoEncodersYet(es);
      next := cursor;
      for i := 0 to |es|
        invariant next == cursor + |Encoders(es[..i])| <= PAYLOAD_LIMIT
        invariant payload[..next] == before + Encoders(es[..i])
        invariant forall k :: 0 <= k < i ==> SizedEncoder(es[k])
      {
        NextEncoder(es, i);
        ok, next := PutEncoder(es[i], next);
        if !ok { return; }
      }
      assert es[..|es|] == es;
      ok := true;
    }

    lemma NoEncodersYet(es: seq<Encoder>)
      ensures Encoders(es[..0]) == []
    {
    }

    method PutCodec(c: Codec, cursor: nat) returns (ok: bool, next: nat)
      requires payload.Length == PAYLOAD_LIMIT && cursor <= PAYLOAD_LIMIT
      modifies payload
      ensures ok <==> SizedCodec(c) && cursor + |CodecBytes(c)| <= PAYLOAD_LIMIT
      ensures ok ==> next == cursor + |CodecBytes(c)| && payload[..next] == old(payload[..cursor]) + CodecBytes(c)
    {
      hide Little, Encoders, Flags, SizedEncoders;
      if |c.hardware| > 64 { return false, cursor; }
      ok, next := Put(Little(Flags(c), 4), cursor);
      if !ok { return; }
      ok, next := Put(Little(|c.hardware|, 4), next);
      if !ok { return; }
      ok, next := PutEncoders(c.hardware, next);
    }

    /** Accepted exactly when every limit is met and everything fits; then the payload holds the
        bytes and is marked complete. */
    method Encode(cs: seq<Codec>) returns (ok: bool)
      requires payload.Length == PAYLOAD_LIMIT && |cs| == 3
      modifies this, payload
      ensures ok <==> Sized(cs) && |All(cs)| <= PAYLOAD_LIMIT
      ensures ok <==>
                && (forall k :: 0 <= k < 3 ==>
                      && |cs[k].hardware| <= 64
                      && forall j :: 0 <= j < |cs[k].hardware| ==> |cs[k].hardware[j].name| <= 4096 && |cs[k].hardware[j].id| <= 4096)
                && CodecStart(cs, 3) <= 256 * 1024
      ensures ok ==> complete == 1 && bytes == |All(cs)| && payload[..bytes] == All(cs)
      ensures !ok ==> complete == old(complete) && bytes == old(bytes)
    {
      hide All, CodecBytes, SizedCodec;
      SizesOf(cs);
      var cursor := 0;
      NoCodecsYet(cs);
      for i := 0 to |cs|
        invariant complete == old(complete) && bytes == old(bytes)
        invariant cursor == |All(cs[..i])| <= PAYLOAD_LIMIT
        invariant payload[..cursor] == All(cs[..i])
        invariant forall k :: 0 <= k < i ==> SizedCodec(cs[k])
      {
        NextCodec(cs, i);
        ok, cursor := PutCodec(cs[i], cursor);
        if !ok { return; }
      }
      assert cs[..|cs|] == cs;
      bytes := cursor;
      complete := 1;
      ok := true;
    }

    lemma SizesOf(cs: seq<Codec>)
      ensures Sized(cs) <==> forall k :: 0 <= k < |cs| ==>
                && |cs[k].hardware| <= 64
                && forall j :: 0 <= j < |cs[k].hardware| ==> |cs[k].hardware[j].name| <= 4096 && |cs[k].hardware[j].id| <= 4096
      ensures Sized(cs) ==> |All(cs)| == CodecStart(cs, |cs|)
    {
      hide All, CodecStart;
      if Sized(cs) { PayloadLaidOut(All(cs), 0, cs, 0, 0); }
    }

    lemma NoCodecsYet(cs: seq<Codec>)
      ensures All(cs[..0]) == []
    {
    }

    // ---- the parent's side ----

    ghost function Unread(cursor: nat): seq<Byte>
      reads this, payload
      requires cursor <= bytes <= payload.Length
    {
      payload[cursor..bytes]
    }

    method GetNumber(cursor: nat) returns (n: Option<nat>, next: nat)
      requires cursor <= bytes <= payload.Length
      ensures next <= bytes
      ensures TakeNumber(Unread(cursor)) == if n.None? then None else Some(Taken(n.value, Unread(next)))
    {
      if 4 > bytes - cursor { return None, cursor; }
      next := cursor + 4;
      n := Some(Value(payload[cursor..next]));
      SliceParts(payload[..], cursor, next, bytes);
    }

    method GetText(cursor: nat) returns (s: Option<seq<Wide>>, next: nat)
      requires cursor <= bytes <= payload.Length
      ensures next <= bytes
      ensures TakeText(Unread(cursor)) == if s.None? then None else Some(Taken(s.value, Unread(next)))
    {
      hide TakeNumber, Widen, Value;
      var n;
      n, next := GetNumber(cursor);
      if n.None? || n.value > 4096 || 2 * n.value > bytes - next { return None, next; }
      var wide := payload[next..next + 2 * n.value];
      SliceParts(payload[..], next, next + 2 * n.value, bytes);
      next := next + 2 * n.value;
      s := Some(Widen(wide));
    }

    method GetEncoder(cursor: nat) returns (e: Option<Encoder>, next: nat)
      requires cursor <= bytes <= payload.Length
      ensures next <= bytes
      ensures TakeEncoder(Unread(cursor)) == if e.None? then None else Some(Taken(e.value, Unread(next)))
    {
      hide TakeText, Unread;
      var name, id;
      name, next := GetText(cursor);
      if name.None? { return None, next; }
      id, next := GetText(next);
      if id.None? { return None, next; }
      e := Some(Encoder(name.value, id.value));
    }

    method GetEncoders(count: nat, cursor: nat) returns (es: Option<seq<Encoder>>, next: nat)
      requires cursor <= bytes <= payload.Length
      ensures next <= bytes
      ensures TakeEncoders(count, Unread(cursor)) == if es.None? then None else Some(Taken(es.value, Unread(next)))
    {
      hide TakeEncoder, TakeEncoders, Unread;
      var done: seq<Encoder> := [];
      next := cursor;
      ghost var all := TakeEncoders(count, Unread(cursor));
      assert all.Some? ==> [] + all.value.value == all.value.value;
      for i := 0 to count
        invariant next <= bytes
        invariant all == Before(done, TakeEncoders(count - i, Unread(next)))
      {
        EncoderRead(done, count - i, Unread(next));
        var e;
        e, next := GetEncoder(next);
        if e.None? { return None, next; }
        done := done + [e.value];
      }
      NoneLeft(Unread(next));
      assert done + [] == done;
      es := Some(done);
    }

    lemma NoneLeft(b: seq<Byte>)
      ensures TakeEncoders(0, b) == Some(Taken([], b)) && TakeCodecs(0, b) == Some(Taken([], b))
    {
    }

    method GetCodec(cursor: nat) returns (c: Option<Codec>, next: nat)
      requires cursor <= bytes <= payload.Length
      ensures next <= bytes
      ensures TakeCodec(Unread(cursor)) == if c.None? then None else Some(Taken(c.value, Unread(next)))
    {
      hide TakeNumber, TakeEncoders, Unread, CodecOf;
      var flags, count, es;
      flags, next := GetNumber(cursor);
      if flags.None? || flags.value > 63 { return None, next; }
      count, next := GetNumber(next);
      if count.None? || count.value > 64 { return None, next; }
      es, next := GetEncoders(count.value, next);
      if es.None? { return None, next; }
      c := Some(CodecOf(flags.value, es.value));
    }

    /** A complete payload of three codecs and nothing more is read; anything else gives nothing.
        `ProbeSpec.DecodeEncode` and `ProbeSpec.EncodeDecode` say what `Parse` has to do with
        what `Encode` wrote. */
    method Decode() returns (result: Option<seq<Codec>>)
      requires payload.Length == PAYLOAD_LIMIT
      ensures complete != 1 || bytes > PAYLOAD_LIMIT ==> result.None?
      ensures complete == 1 && bytes <= PAYLOAD_LIMIT ==> result == Parse(payload[..bytes])
    {
      hide TakeCodec, TakeCodecs, Unread;
      if complete != 1 || bytes > PAYLOAD_LIMIT { return None; }
      var done: seq<Codec>, cursor: nat := [], 0;
      ghost var all := TakeCodecs(3, Unread(0));
      assert all.Some? ==> [] + all.value.value == all.value.value;
      WholePayload();
      for i := 0 to 3
        invariant cursor <= bytes
        invariant all == Before(done, TakeCodecs(3 - i, Unread(cursor)))
      {
        CodecRead(done, 3 - i, Unread(cursor));
        var c;
        c, cursor := GetCodec(cursor);
        if c.None? { return None; }
        done := done + [c.value];
      }
      NoneLeft(Unread(cursor));
      assert done + [] == done;
      NothingLeft(cursor);
      if cursor != bytes { return None; }
      result := Some(done);
    }

    lemma WholePayload()
      requires bytes <= payload.Length
      ensures Unread(0) == payload[..bytes]
    {
    }

    lemma NothingLeft(cursor: nat)
      requires cursor <= bytes <= payload.Length
      ensures Unread(cursor) == [] <==> cursor == bytes
    {
    }
  }

  /** What the parent reads is what the child was given: nothing is lost or invented. */
  method Exchanged(exchange: Exchange, cs: seq<Codec>) returns (sent: bool, received: Option<seq<Codec>>)
    requires exchange.payload.Length == PAYLOAD_LIMIT && |cs| == 3 && exchange.complete == 0
    modifies exchange, exchange.payload
    ensures sent <==> Sized(cs) && |All(cs)| <= PAYLOAD_LIMIT
    ensures received == if sent then Some(cs) else None
  {
    sent := exchange.Encode(cs);
    received := exchange.Decode();
    if sent { DecodeEncode(cs); }
  }
}
