/** BFT blocks and their byte encoding, over any header encoding. */
module BftBlocks {
  import opened Bytes
  import opened FatPointers
  import opened Options

  datatype BftBlock<H> =
    BftBlock(version: nat, height: nat, previous: FatPointer, candidateHeight: nat, headers: seq<H>)

  const MAX_HEADER_COUNT: nat := 2048

  /** How proof-of-work headers are written and read. */
  datatype HeaderCodec<!H> = HeaderCodec(encode: H -> Bytes, decode: Bytes -> Option<(H, Bytes)>)

  ghost predicate RoundTrips<H(!new)>(c: HeaderCodec<H>) {
    forall h: H, rest: Bytes :: c.decode(c.encode(h) + rest) == Some((h, rest))
  }

  /** The fields fit their `u32` encodings. */
  ghost predicate ValidBlock<H>(b: BftBlock<H>) {
    && b.version < Pow256(4) && b.height < Pow256(4) && b.candidateHeight < Pow256(4)
    && |b.headers| < Pow256(4) && ValidFatPointer(b.previous)
  }

  ghost function EncodeHeaders<H>(c: HeaderCodec<H>, hs: seq<H>): Bytes {
    if hs == [] then [] else EncodeHeaders(c, hs[..|hs| - 1]) + c.encode(hs[|hs| - 1])
  }

  ghost function EncodeBlock<H>(c: HeaderCodec<H>, b: BftBlock<H>): Bytes {
    ToLE(b.version, 4) + ToLE(b.height, 4) + EncodeFatPointer(b.previous) + ToLE(b.candidateHeight, 4)
    + ToLE(|b.headers|, 4) + EncodeHeaders(c, b.headers)
  }

  /** Each header follows those before it. */
  lemma {:induction false} HeaderAt<H>(c: HeaderCodec<H>, hs: seq<H>, i: nat)
    requires i < |hs|
    ensures var bs, at, h := EncodeHeaders(c, hs), |EncodeHeaders(c, hs[..i])|, c.encode(hs[i]);
            at + |h| <= |bs| && bs[at..at + |h|] == h
  {
    var n := |hs| - 1;
    if i < n {
      HeaderAt(c, hs[..n], i);
      assert hs[..n][..i] == hs[..i];
      var at, h := |EncodeHeaders(c, hs[..i])|, c.encode(hs[i]);
      assert EncodeHeaders(c, hs)[at..at + |h|] == EncodeHeaders(c, hs[..n])[at..at + |h|];
    }
  }

  /** The layout of a block: version and height, the pointer to the block before, the candidate height, the header count
    * and the headers. Numbers take four bytes from the least significant one on. */
  lemma {:induction false} BlockLayout<H>(c: HeaderCodec<H>, b: BftBlock<H>)
    requires ValidBlock(b)
    ensures var bs, at := EncodeBlock(c, b), 8 + 46 + 96 * |b.previous.signatures|;
            && |bs| == at + 8 + |EncodeHeaders(c, b.headers)|
            && bs[8..at] == EncodeFatPointer(b.previous) && bs[at + 8..] == EncodeHeaders(c, b.headers)
            && forall i :: 0 <= i < 4 ==>
                 && bs[i] == ByteAt(b.version, i) && bs[4 + i] == ByteAt(b.height, i)
                 && bs[at + i] == ByteAt(b.candidateHeight, i) && bs[at + 4 + i] == ByteAt(|b.headers|, i)
  {
    FatPointerLayout(b.previous);
    hide EncodeFatPointer, EncodeHeaders, ToLE, ByteAt;
    var bs, at := EncodeBlock(c, b), 8 + 46 + 96 * |b.previous.signatures|;
    forall i | 0 <= i < 4
      ensures && bs[i] == ByteAt(b.version, i) && bs[4 + i] == ByteAt(b.height, i)
              && bs[at + i] == ByteAt(b.candidateHeight, i) && bs[at + 4 + i] == ByteAt(|b.headers|, i)
    {
      LittleEndian(b.version, 4, i);
      LittleEndian(b.height, 4, i);
      LittleEndian(b.candidateHeight, 4, i);
      LittleEndian(|b.headers|, 4, i);
    }
  }

  ghost function DecodeHeaders<H>(c: HeaderCodec<H>, n: nat, bs: Bytes): Option<(seq<H>, Bytes)> {
    if n == 0 then Some(([], bs))
    else match DecodeHeaders(c, n - 1, bs)
      case None => None
      case Some((hs, rest)) =>
        match c.decode(rest)
        case None => None
        case Some((h, rest')) => Some((hs + [h], rest'))
  }

  /** A little-endian `u32` and the bytes after it. */
  function ReadU32(bs: Bytes): Option<(nat, Bytes)> {
    if |bs| < 4 then None else Some((FromLE(bs[..4]), bs[4..]))
  }

  lemma {:induction false} ReadWrittenU32(n: nat, rest: Bytes)
    requires n < Pow256(4)
    ensures ReadU32(ToLE(n, 4) + rest) == Some((n, rest))
  {
    FromToLE(n, 4);
    assert (ToLE(n, 4) + rest)[..4] == ToLE(n, 4) && (ToLE(n, 4) + rest)[4..] == rest;
  }

  /** The candidate height and the headers: what follows the previous pointer. */
  ghost function DecodeTail<H>(c: HeaderCodec<H>, bs: Bytes): Option<(nat, seq<H>, Bytes)> {
    match ReadU32(bs)
    case None => None
    case Some((candidateHeight, bs)) =>
      match ReadU32(bs)
      case None => None
      case Some((count, bs)) =>
        if count > MAX_HEADER_COUNT then None
        else match DecodeHeaders(c, count, bs)
          case None => None
          case Some((hs, rest)) => Some((candidateHeight, hs, rest))
  }

  ghost function DecodeBlock<H>(c: HeaderCodec<H>, bs: Bytes): Option<(BftBlock<H>, Bytes)> {
    match ReadU32(bs)
    case None => None
    case Some((version, bs)) =>
      match ReadU32(bs)
      case None => None
      case Some((height, bs)) =>
        match DecodeFatPointer(bs)
        case None => None
        case Some((previous, bs)) =>
          match DecodeTail(c, bs)
          case None => None
          case Some((candidateHeight, hs, rest)) =>
            Some((BftBlock(version, height, previous, candidateHeight, hs), rest))
  }

  method SerializeBlock<H>(c: HeaderCodec<H>, b: BftBlock<H>) returns (buf: Bytes)
    ensures buf == EncodeBlock(c, b)
  {
    var previous := SerializeFatPointer(b.previous);
    buf := ToLE(b.version, 4) + ToLE(b.height, 4) + previous + ToLE(b.candidateHeight, 4) + ToLE(|b.headers|, 4);
    ghost var head := buf;
    for i := 0 to |b.headers|
      invariant buf == head + EncodeHeaders(c, b.headers[..i])
    {
      assert b.headers[..i + 1][..i] == b.headers[..i];
      buf := buf + c.encode(b.headers[i]);
    }
    assert b.headers[..|b.headers|] == b.headers;
  }

  method DeserializeHeaders<H>(c: HeaderCodec<H>, count: nat, bs: Bytes) returns (r: Option<(seq<H>, Bytes)>)
    ensures r == DecodeHeaders(c, count, bs)
  {
    var hs: seq<H> := [];
    var rest := bs;
    for i := 0 to count
      invariant DecodeHeaders(c, i, bs) == Some((hs, rest))
    {
      var h := c.decode(rest);
      if h.None? {
        DecodeHeadersNone(c, i + 1, count, bs);
        return None;
      }
      hs, rest := hs + [h.value.0], h.value.1;
    }
    r := Some((hs, rest));
  }

  lemma {:induction false} DecodeHeadersNone<H>(c: HeaderCodec<H>, m: nat, n: nat, bs: Bytes)
    requires m <= n && DecodeHeaders(c, m, bs).None?
    ensures DecodeHeaders(c, n, bs).None?
    decreases n - m
  {
    if m == n {
    } else {
      DecodeHeadersNone(c, m + 1, n, bs);
    }
  }

  method DeserializeBlock<H>(c: HeaderCodec<H>, reader: Bytes) returns (r: Option<(BftBlock<H>, Bytes)>)
    ensures r == DecodeBlock(c, reader)
  {
    var version := ReadU32(reader);
    if version.None? { return None; }
    var height := ReadU32(version.value.1);
    if height.None? { return None; }
    var previous := DeserializeFatPointer(height.value.1);
    if previous.None? { return None; }
    var candidateHeight := ReadU32(previous.value.1);
    if candidateHeight.None? { return None; }
    var count := ReadU32(candidateHeight.value.1);
    if count.None? || count.value.0 > MAX_HEADER_COUNT { return None; }
    var headers := DeserializeHeaders(c, count.value.0, count.value.1);
    if headers.None? { return None; }
    var block :=
      BftBlock(version.value.0, height.value.0, previous.value.0, candidateHeight.value.0, headers.value.0);
    r := Some((block, headers.value.1));
  }

  // -------------------------------------------------------------------------
  // Round trips.

  lemma {:induction false} DecodeEncodedHeaders<H(!new)>(c: HeaderCodec<H>, hs: seq<H>, rest: Bytes)
    requires RoundTrips(c)
    ensures DecodeHeaders(c, |hs|, EncodeHeaders(c, hs) + rest) == Some((hs, rest))
  {
    if hs != [] {
      var n := |hs| - 1;
      var init, last := hs[..n], hs[n];
      DecodeEncodedHeaders(c, init, c.encode(last) + rest);
      assert EncodeHeaders(c, hs) + rest == EncodeHeaders(c, init) + (c.encode(last) + rest);
      assert init + [last] == hs;
    } else {
      assert [] + rest == rest;
    }
  }

  lemma {:induction false} DecodeEncodedTail<H(!new)>(c: HeaderCodec<H>, candidateHeight: nat, hs: seq<H>, rest: Bytes)
    requires RoundTrips(c) && candidateHeight < Pow256(4) && |hs| < Pow256(4)
    ensures DecodeTail(c, ToLE(candidateHeight, 4) + (ToLE(|hs|, 4) + (EncodeHeaders(c, hs) + rest))) ==
            if |hs| <= MAX_HEADER_COUNT then Some((candidateHeight, hs, rest)) else None
  {
    hide ToLE, FromLE;
    var body := EncodeHeaders(c, hs) + rest;
    ReadWrittenU32(candidateHeight, ToLE(|hs|, 4) + body);
    ReadWrittenU32(|hs|, body);
    if |hs| <= MAX_HEADER_COUNT {
      DecodeEncodedHeaders(c, hs, rest);
    }
  }

  /** A block decodes back to itself, leaving any trailing bytes, exactly if its previous pointer has
    * fewer than 65536 signatures and it has at most 2048 headers. */
  lemma {:induction false} BlockRoundTrip<H(!new)>(c: HeaderCodec<H>, b: BftBlock<H>, rest: Bytes)
    requires RoundTrips(c) && ValidBlock(b)
    ensures DecodeBlock(c, EncodeBlock(c, b) + rest) == Some((b, rest)) <==>
            |b.previous.signatures| < 0x1_0000 && |b.headers| <= MAX_HEADER_COUNT
    ensures var r := DecodeBlock(c, EncodeBlock(c, b) + rest);
            r.Some? && r.value.0 == b ==> r.value.1 == rest
  {
    hide ToLE, FromLE, EncodeFatPointer, DecodeFatPointer, EncodeHeaders, DecodeTail, ReadU32, RoundTrips;
    var tail := ToLE(b.candidateHeight, 4) + (ToLE(|b.headers|, 4) + (EncodeHeaders(c, b.headers) + rest));
    var bs := EncodeFatPointer(b.previous) + tail;
    assert EncodeBlock(c, b) + rest == ToLE(b.version, 4) + (ToLE(b.height, 4) + bs);
    ReadWrittenU32(b.version, ToLE(b.height, 4) + bs);
    ReadWrittenU32(b.height, bs);
    FatPointerRoundTrip(b.previous, tail);
    DecodeEncodedTail(c, b.candidateHeight, b.headers, rest);
    if |b.previous.signatures| >= 0x1_0000 {
      var n := |b.previous.signatures| % 0x1_0000;
      assert |b.previous.signatures[..n]| != |b.previous.signatures|;
    }
  }

  /** A block followed by the fat pointer to it. */
  ghost function EncodePair<H>(c: HeaderCodec<H>, b: BftBlock<H>, p: FatPointer): Bytes {
    EncodeBlock(c, b) + EncodeFatPointer(p)
  }

  ghost function DecodePair<H>(c: HeaderCodec<H>, bs: Bytes): Option<(BftBlock<H>, FatPointer, Bytes)> {
    match DecodeBlock(c, bs)
    case None => None
    case Some((b, bs)) =>
      match DecodeFatPointer(bs)
      case None => None
      case Some((p, rest)) => Some((b, p, rest))
  }

  lemma {:induction false} PairRoundTrip<H(!new)>(c: HeaderCodec<H>, b: BftBlock<H>, p: FatPointer, rest: Bytes)
    requires RoundTrips(c) && ValidBlock(b) && ValidFatPointer(p)
    ensures DecodePair(c, EncodePair(c, b, p) + rest) == Some((b, p, rest)) <==>
            |b.previous.signatures| < 0x1_0000 && |b.headers| <= MAX_HEADER_COUNT && |p.signatures| < 0x1_0000
  {
    hide EncodeBlock, DecodeBlock, EncodeFatPointer, DecodeFatPointer, RoundTrips;
    assert EncodePair(c, b, p) + rest == EncodeBlock(c, b) + (EncodeFatPointer(p) + rest);
    BlockRoundTrip(c, b, EncodeFatPointer(p) + rest);
    FatPointerRoundTrip(p, rest);
  }
}
