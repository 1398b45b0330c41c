// The archive's object format: each payload behind a 4-byte big-endian length. Compression is
// taken as invertible and left out.
module Framing {
  import opened Basics
  import opened Text

  type byte = b: int | 0 <= b < 256
  type Bytes = seq<byte>

  const LENGTH_LIMIT: nat := 0x1_0000_0000

  /** `len(payload).to_bytes(4, "big")`. */
  function BigEndian4(n: nat): (b: Bytes)
    requires n < LENGTH_LIMIT
    ensures |b| == 4
  {
    [n / 0x100_0000, n / 0x1_0000 % 0x100, n / 0x100 % 0x100, n % 0x100]
  }

  /** `int.from_bytes(b, "big")`, for any number of bytes. */
  function FromBytes(b: Bytes): nat {
    if b == [] then 0 else 0x100 * FromBytes(b[..|b| - 1]) + b[|b| - 1]
  }

  lemma LengthRoundTrip(n: nat)
    requires n < LENGTH_LIMIT
    ensures FromBytes(BigEndian4(n)) == n
  {
    var b := BigEndian4(n);
    var b3 := b[..3];
    var b2 := b3[..2];
    var b1 := b2[..1];
    assert b1[..0] == [];
    assert FromBytes(b1) == n / 0x100_0000;
    assert FromBytes(b2) == 0x100 * FromBytes(b1) + n / 0x1_0000 % 0x100 == n / 0x1_0000;
    assert FromBytes(b3) == 0x100 * FromBytes(b2) + n / 0x100 % 0x100 == n / 0x100;
  }

  predicate Framable(payloads: seq<Bytes>) {
    forall p :: p in payloads ==> |p| < LENGTH_LIMIT
  }

  function Framed(payloads: seq<Bytes>): Bytes
    requires Framable(payloads)
  {
    if payloads == [] then []
    else BigEndian4(|payloads[0]|) + payloads[0] + Framed(payloads[1..])
  }

  /** The reader, from a cursor. Slices clip at the end of the data, as the source's do, so any bytes
      can be read. */
  function UnframedFrom(raw: Bytes, cursor: nat): seq<Bytes>
    decreases |raw| - cursor
  {
    if cursor >= |raw| then []
    else
      var body := cursor + 4;
      var end := body + FromBytes(raw[cursor..Min(body, |raw|)]);
      [raw[Min(body, |raw|)..Min(end, |raw|)]] + UnframedFrom(raw, end)
  }

  function Unframed(raw: Bytes): seq<Bytes> {
    UnframedFrom(raw, 0)
  }

  lemma HeaderAndBody(before: Bytes, header: Bytes, p: Bytes, tail: Bytes)
    requires |header| == 4
    ensures var raw, body := before + header + p + tail, |before| + 4;
      && raw == before + (header + p + tail)
      && raw[|before|..Min(body, |raw|)] == header && raw[Min(body, |raw|)..Min(body + |p|, |raw|)] == p
  {}

  lemma {:induction false} UnframeSuffix(before: Bytes, payloads: seq<Bytes>)
    requires Framable(payloads)
    ensures UnframedFrom(before + Framed(payloads), |before|) == payloads
    decreases payloads
  {
    hide BigEndian4, FromBytes;
    if payloads != [] {
      var p, rest := payloads[0], payloads[1..];
      var header := BigEndian4(|p|);
      LengthRoundTrip(|p|);
      HeaderAndBody(before, header, p, Framed(rest));
      UnframeSuffix(before + header + p, rest);
      assert payloads == [p] + rest;
    }
  }

  /** Reading back what was written gives the same messages, with the boundaries they had. */
  lemma RoundTrip(payloads: seq<Bytes>)
    requires Framable(payloads)
    ensures Unframed(Framed(payloads)) == payloads
  {
    assert [] + Framed(payloads) == Framed(payloads);
    UnframeSuffix([], payloads);
  }

  lemma FramingInjective(a: seq<Bytes>, b: seq<Bytes>)
    requires Framable(a) && Framable(b) && Framed(a) == Framed(b)
    ensures a == b
  {
    RoundTrip(a);
    RoundTrip(b);
  }

  lemma FourParts(a: Bytes, b: Bytes, c: Bytes, d: Bytes)
    ensures a + b + (c + d) == a + b + c + d
  {}

  lemma {:induction false} FramedAppend(payloads: seq<Bytes>, p: Bytes)
    requires Framable(payloads) && |p| < LENGTH_LIMIT
    ensures Framable(payloads + [p])
    ensures Framed(payloads + [p]) == Framed(payloads) + (BigEndian4(|p|) + p)
  {
    hide BigEndian4;
    if payloads == [] {
      assert payloads + [p] == [p];
      assert Framed([p]) == BigEndian4(|p|) + p + [];
    } else {
      FramedAppend(payloads[1..], p);
      assert (payloads + [p])[1..] == payloads[1..] + [p];
      FourParts(BigEndian4(|payloads[0]|), payloads[0], Framed(payloads[1..]), BigEndian4(|p|) + p);
    }
  }

  /** `frame`; `None` when some length does not fit four bytes and the source raises. */
  method Frame(payloads: seq<Bytes>) returns (blob: Option<Bytes>)
    ensures blob == if Framable(payloads) then Some(Framed(payloads)) else None
  {
    var buffer: Bytes := [];
    for i := 0 to |payloads|
      invariant Framable(payloads[..i]) && buffer == Framed(payloads[..i])
    {
      var p := payloads[i];
      if |p| >= LENGTH_LIMIT {
        return None;
      }
      FramedAppend(payloads[..i], p);
      assert payloads[..i + 1] == payloads[..i] + [p];
      buffer := buffer + (BigEndian4(|p|) + p);
    }
    assert payloads[..|payloads|] == payloads;
    return Some(buffer);
  }

  lemma UnframeStep(raw: Bytes, cursor: nat, done: seq<Bytes>)
    requires cursor < |raw|
    ensures var end := cursor + 4 + FromBytes(raw[cursor..Min(cursor + 4, |raw|)]);
      done + UnframedFrom(raw, cursor) ==
        done + [raw[Min(cursor + 4, |raw|)..Min(end, |raw|)]] + UnframedFrom(raw, end)
  {}

  lemma UnframeEnd(raw: Bytes, cursor: nat)
    requires cursor >= |raw|
    ensures UnframedFrom(raw, cursor) == []
  {}

  method Unframe(raw: Bytes) returns (out: seq<Bytes>)
    ensures out == Unframed(raw)
  {
    hide UnframedFrom, FromBytes;
    out := [];
    var cursor := 0;
    while cursor < |raw|
      invariant out + UnframedFrom(raw, cursor) == Unframed(raw)
      decreases |raw| - cursor
    {
      UnframeStep(raw, cursor, out);
      var size := FromBytes(raw[cursor..Min(cursor + 4, |raw|)]);
      var next := cursor + 4 + size;
      out := out + [raw[Min(cursor + 4, |raw|)..Min(next, |raw|)]];
      cursor := next;
    }
    UnframeEnd(raw, cursor);
  }
}
