/** Votes and fat pointers, with their byte encodings. */
module FatPointers {
  import opened Bytes
  import opened Options

  // -------------------------------------------------------------------------
  // Votes.

  /** A vote for a value in a round. `typ` is true for a commit. */
  datatype MalVote = MalVote(validatorAddress: Bytes, value: Bytes, height: nat, typ: bool, round: int)

  const VOTE_LEN: nat := 76
  const TEMPLATE_LEN: nat := 76 - 32
  const SIGN_BIT: int := 0x8000_0000

  /** The field widths: 32-byte key and hash, `u64` height, `i32` round. */
  ghost predicate ValidVote(v: MalVote) {
    |v.validatorAddress| == 32 && |v.value| == 32 && v.height < Pow256(8) && -SIGN_BIT <= v.round < SIGN_BIT
  }

  /** The low 31 bits of the two's complement round, with the vote type in the top bit. */
  function MergedRound(v: MalVote): nat {
    v.round % SIGN_BIT + if v.typ then SIGN_BIT else 0
  }

  /** Everything in a vote but the voter. */
  function VoteTail(v: MalVote): Bytes {
    v.value + ToLE(v.height, 8) + ToLE(MergedRound(v), 4)
  }

  function VoteToBytes(v: MalVote): Bytes {
    v.validatorAddress + VoteTail(v)
  }

  function VoteFromBytes(bs: Bytes): MalVote
    requires |bs| == VOTE_LEN
  {
    var merged := FromLE(bs[72..76]);
    MalVote(bs[0..32], bs[32..64], FromLE(bs[64..72]), merged >= SIGN_BIT, merged % SIGN_BIT)
  }

  /** A vote survives the trip through its bytes exactly if its round is not negative. */
  lemma {:induction false} VoteRoundTrip(v: MalVote)
    requires ValidVote(v)
    ensures |VoteToBytes(v)| == VOTE_LEN
    ensures VoteFromBytes(VoteToBytes(v)) == v.(round := v.round % SIGN_BIT)
    ensures VoteFromBytes(VoteToBytes(v)) == v <==> v.round >= 0
  {
    VoteParts(v);
    Widths();
    MergedParts(v);
    hide MergedRound;
    FromToLE(v.height, 8);
    FromToLE(MergedRound(v), 4);
    hide ToLE, FromLE, Pow256, VoteToBytes;
  }

  lemma {:induction false} MergedParts(v: MalVote)
    requires -SIGN_BIT <= v.round < SIGN_BIT
    ensures MergedRound(v) < 0x1_0000_0000 && (MergedRound(v) >= SIGN_BIT <==> v.typ)
    ensures MergedRound(v) % SIGN_BIT == v.round % SIGN_BIT && (v.round % SIGN_BIT == v.round <==> v.round >= 0)
  {
  }

  lemma {:induction false} VoteParts(v: MalVote)
    requires ValidVote(v)
    ensures var bs := VoteToBytes(v);
            && |bs| == VOTE_LEN && bs[0..32] == v.validatorAddress && bs[32..64] == v.value
            && bs[64..72] == ToLE(v.height, 8) && bs[72..76] == ToLE(MergedRound(v), 4)
  {
    hide ToLE, MergedRound, Pow256;
  }

  /** The layout of a vote: the voter's key, the block hash, the height from its least significant byte on, and the
    * round likewise without its sign. The top bit is set exactly for a commit. */
  lemma {:induction false} VoteLayout(v: MalVote)
    requires ValidVote(v)
    ensures var bs, round := VoteToBytes(v), v.round % SIGN_BIT;
            && |bs| == 76 && bs[0..32] == v.validatorAddress && bs[32..64] == v.value
            && (forall i :: 0 <= i < 8 ==> bs[64 + i] == ByteAt(v.height, i))
            && (forall i :: 0 <= i < 3 ==> bs[72 + i] == ByteAt(round, i))
            && bs[75] == ByteAt(round, 3) + (if v.typ then 128 else 0) && (bs[75] >= 128 <==> v.typ)
  {
    var bs, round := VoteToBytes(v), v.round % SIGN_BIT;
    VoteParts(v);
    hide VoteToBytes;
    forall i | 0 <= i < 8 ensures bs[64 + i] == ByteAt(v.height, i) {
      LittleEndian(v.height, 8, i);
      assert bs[64 + i] == bs[64..72][i];
    }
    forall i | 0 <= i < 4 ensures bs[72 + i] == ByteAt(MergedRound(v), i) {
      LittleEndian(MergedRound(v), 4, i);
      assert bs[72 + i] == bs[72..76][i];
    }
    FirstBytes(round);
    FirstBytes(MergedRound(v));
    hide ToLE, ByteAt;
    TopBit(round, v.typ);
    assert bs[72] == ByteAt(round, 0) && bs[73] == ByteAt(round, 1) && bs[74] == ByteAt(round, 2);
  }

  lemma {:induction false} TopBit(round: nat, typ: bool)
    requires round < SIGN_BIT
    ensures var merged := round + if typ then SIGN_BIT else 0;
            && merged % 256 == round % 256 && merged / 256 % 256 == round / 256 % 256
            && merged / 0x1_0000 % 256 == round / 0x1_0000 % 256
            && merged / 0x100_0000 % 256 == round / 0x100_0000 % 256 + (if typ then 128 else 0)
            && round / 0x100_0000 % 256 < 128
  {
    if typ {
      DivideSum(round, 0x80_0000, 256);
      DivideSum(round, 0x8000, 0x1_0000);
      DivideSum(round, 128, 0x100_0000);
      SameByte(round, 0x80_0000);
      SameByte(round / 256, 0x8000);
      SameByte(round / 0x1_0000, 128);
    }
    assert round / 0x100_0000 < 128;
  }

  lemma {:induction false} SameByte(n: nat, m: nat)
    ensures (n + m * 256) % 256 == n % 256
  {
    DivideSum(n, m, 256);
  }

  /** Every 76-byte string is the encoding of exactly one vote. */
  lemma {:induction false} VoteBytesRoundTrip(bs: Bytes)
    requires |bs| == VOTE_LEN
    ensures ValidVote(VoteFromBytes(bs)) && VoteToBytes(VoteFromBytes(bs)) == bs
  {
    var v := VoteFromBytes(bs);
    Widths();
    ToFromLE(bs[64..72]);
    ToFromLE(bs[72..76]);
    assert MergedRound(v) == FromLE(bs[72..76]);
    hide ToLE, FromLE, MergedRound, Pow256;
    Cut(bs);
  }

  lemma {:induction false} Cut(bs: Bytes)
    requires |bs| == VOTE_LEN
    ensures bs == bs[0..32] + (bs[32..64] + bs[64..72] + bs[72..76])
  {
  }

  // -------------------------------------------------------------------------
  // Fat pointers.

  datatype Signature = Signature(publicKey: Bytes, voteSignature: Bytes)

  /** A bundle of signed votes for a block. */
  datatype FatPointer = FatPointer(template: Bytes, signatures: seq<Signature>)

  const SIGNATURE_LEN: nat := 32 + 64

  ghost predicate ValidSignature(s: Signature) {
    |s.publicKey| == 32 && |s.voteSignature| == 64
  }

  ghost predicate ValidFatPointer(p: FatPointer) {
    |p.template| == TEMPLATE_LEN && forall i :: 0 <= i < |p.signatures| ==> ValidSignature(p.signatures[i])
  }

  function NullFatPointer(): FatPointer {
    FatPointer(Zeros(TEMPLATE_LEN), [])
  }

  function PointsAtBlockHash(p: FatPointer): Bytes
    requires |p.template| == TEMPLATE_LEN
  {
    p.template[0..32]
  }

  function VoteTemplate(p: FatPointer): MalVote
    requires |p.template| == TEMPLATE_LEN
  {
    VoteFromBytes(Zeros(32) + p.template)
  }

  /** The votes that the signatures sign. */
  function Inflate(p: FatPointer): seq<(MalVote, Bytes)>
    requires |p.template| == TEMPLATE_LEN
  {
    seq(|p.signatures|, i requires 0 <= i < |p.signatures| =>
      (VoteTemplate(p).(validatorAddress := p.signatures[i].publicKey), p.signatures[i].voteSignature))
  }

  /** Each inflated vote is, byte for byte, the signer's key followed by the 44 template bytes,
    * and it votes for the block that the pointer points at. */
  lemma {:induction false} InflatedVoteBytes(p: FatPointer, i: nat)
    requires ValidFatPointer(p) && i < |p.signatures|
    ensures |Inflate(p)| == |p.signatures| && Inflate(p)[i].1 == p.signatures[i].voteSignature
    ensures VoteToBytes(Inflate(p)[i].0) == p.signatures[i].publicKey + p.template
    ensures Inflate(p)[i].0.value == PointsAtBlockHash(p)
  {
    hide ToLE, FromLE, VoteTail;
    var bs, t := Zeros(32) + p.template, VoteTemplate(p);
    VoteBytesRoundTrip(bs);
    assert |t.validatorAddress| == 32;
    assert VoteTail(t) == VoteToBytes(t)[32..] == p.template;
    SameTail(t, p.signatures[i].publicKey);
    assert bs[32..64] == p.template[0..32];
  }

  lemma {:induction false} SameTail(v: MalVote, address: Bytes)
    ensures VoteTail(v.(validatorAddress := address)) == VoteTail(v)
  {
  }

  function SignatureToBytes(s: Signature): Bytes {
    s.publicKey + s.voteSignature
  }

  function SignatureFromBytes(bs: Bytes): Signature
    requires |bs| == SIGNATURE_LEN
  {
    Signature(bs[0..32], bs[32..96])
  }

  ghost function EncodeSignatures(ss: seq<Signature>): Bytes {
    if ss == [] then [] else SignatureToBytes(ss[0]) + EncodeSignatures(ss[1..])
  }

  /** The encoding. The signature count is truncated to 16 bits. */
  ghost function EncodeFatPointer(p: FatPointer): Bytes {
    p.template + ToLE(|p.signatures| % 0x1_0000, 2) + EncodeSignatures(p.signatures)
  }

  ghost function DecodeSignatures(n: nat, bs: Bytes): Option<(seq<Signature>, Bytes)> {
    if n == 0 then Some(([], bs))
    else if |bs| < SIGNATURE_LEN then None
    else match DecodeSignatures(n - 1, bs[SIGNATURE_LEN..])
      case None => None
      case Some((ss, rest)) => Some(([SignatureFromBytes(bs[..SIGNATURE_LEN])] + ss, rest))
  }

  /** Decoding, with the bytes that are left over. */
  ghost function DecodeFatPointer(bs: Bytes): Option<(FatPointer, Bytes)> {
    if |bs| < TEMPLATE_LEN + 2 then None
    else
      match DecodeSignatures(FromLE(bs[TEMPLATE_LEN..TEMPLATE_LEN + 2]), bs[TEMPLATE_LEN + 2..])
      case None => None
      case Some((ss, rest)) => Some((FatPointer(bs[..TEMPLATE_LEN], ss), rest))
  }

  lemma {:induction false} SignaturesLength(ss: seq<Signature>)
    requires forall j :: 0 <= j < |ss| ==> ValidSignature(ss[j])
    ensures |EncodeSignatures(ss)| == 96 * |ss|
  {
    if ss == [] {
    } else {
      SignaturesLength(ss[1..]);
    }
  }

  lemma {:induction false} SignaturesSplit(ss: seq<Signature>, i: nat)
    requires i <= |ss|
    ensures EncodeSignatures(ss) == EncodeSignatures(ss[..i]) + EncodeSignatures(ss[i..])
  {
    hide SignatureToBytes;
    if i == 0 {
      assert ss[..0] == [] && ss[0..] == ss;
    } else {
      SignaturesSplit(ss[1..], i - 1);
      assert ss[..i][1..] == ss[1..][..i - 1] && ss[1..][i - 1..] == ss[i..];
    }
  }

  /** The bytes `bs` from `at` on are those of a signature: the signer's key and then the signed vote. */
  ghost predicate HoldsSignature(bs: Bytes, at: nat, s: Signature) {
    at + 96 <= |bs| && bs[at..at + 32] == s.publicKey && bs[at + 32..at + 96] == s.voteSignature
  }

  lemma {:induction false} SignatureAfter(head: Bytes, ss: seq<Signature>, i: nat)
    requires i < |ss| && forall j :: 0 <= j < |ss| ==> ValidSignature(ss[j])
    ensures HoldsSignature(head + EncodeSignatures(ss), |head| + 96 * i, ss[i])
  {
    SignaturesSplit(ss, i);
    SignaturesLength(ss[..i]);
    var before, after := head + EncodeSignatures(ss[..i]), EncodeSignatures(ss[i + 1..]);
    assert ss[i..][1..] == ss[i + 1..];
    assert EncodeSignatures(ss[i..]) == SignatureToBytes(ss[i]) + after;
    hide EncodeSignatures;
    assert head + EncodeSignatures(ss) == before + SignatureToBytes(ss[i]) + after;
    Between(before, ss[i], after);
  }

  lemma {:induction false} Between(before: Bytes, s: Signature, after: Bytes)
    requires ValidSignature(s)
    ensures HoldsSignature(before + SignatureToBytes(s) + after, |before|, s)
  {
  }

  /** The layout of a fat pointer: the template, the signature count from its low byte on, and the signatures. */
  lemma {:induction false} FatPointerLayout(p: FatPointer)
    requires ValidFatPointer(p)
    ensures var bs, n := EncodeFatPointer(p), |p.signatures|;
            && |bs| == 46 + 96 * n && bs[0..44] == p.template
            && bs[44] == n % 256 && bs[45] == n / 256 % 256
            && forall i :: 0 <= i < n ==> HoldsSignature(bs, 46 + 96 * i, p.signatures[i])
  {
    var n := |p.signatures|;
    var head := p.template + ToLE(n % 0x1_0000, 2);
    FirstBytes(n % 0x1_0000);
    LittleEndian(n % 0x1_0000, 2, 0);
    LittleEndian(n % 0x1_0000, 2, 1);
    CountBytes(n);
    SignaturesLength(p.signatures);
    hide ToLE, ByteAt, EncodeSignatures, HoldsSignature, ValidSignature;
    forall i | 0 <= i < n ensures HoldsSignature(head + EncodeSignatures(p.signatures), 46 + 96 * i, p.signatures[i]) {
      SignatureAfter(head, p.signatures, i);
    }
  }

  lemma {:induction false} CountBytes(n: nat)
    ensures n % 0x1_0000 % 256 == n % 256 && n % 0x1_0000 / 256 % 256 == n / 256 % 256
  {
    var k, m := n / 0x1_0000, n % 0x1_0000;
    assert n == m + (k * 256) * 256;
    DivideSum(m, k * 256, 256);
    SameByte(m, k * 256);
    SameByte(m / 256, k);
  }

  lemma {:induction false} EncodeSignaturesAppend(ss: seq<Signature>, s: Signature)
    ensures EncodeSignatures(ss + [s]) == EncodeSignatures(ss) + SignatureToBytes(s)
  {
    if ss != [] {
      EncodeSignaturesAppend(ss[1..], s);
      assert (ss + [s])[1..] == ss[1..] + [s];
    } else {
      assert EncodeSignatures([s][1..]) == [];
    }
  }

  method SerializeFatPointer(p: FatPointer) returns (buf: Bytes)
    ensures buf == EncodeFatPointer(p)
  {
    buf := p.template + ToLE(|p.signatures| % 0x1_0000, 2);
    ghost var head := buf;
    for i := 0 to |p.signatures|
      invariant buf == head + EncodeSignatures(p.signatures[..i])
    {
      EncodeSignaturesAppend(p.signatures[..i], p.signatures[i]);
      assert p.signatures[..i + 1] == p.signatures[..i] + [p.signatures[i]];
      buf := buf + SignatureToBytes(p.signatures[i]);
    }
    assert p.signatures[..|p.signatures|] == p.signatures;
  }

  /** Decoding `n` signatures is decoding one and then the others. */
  lemma {:induction false} DecodeSignaturesSnoc(n: nat, bs: Bytes)
    ensures DecodeSignatures(n + 1, bs) ==
            match DecodeSignatures(n, bs)
            case None => None
            case Some((ss, rest)) =>
              if |rest| < SIGNATURE_LEN then None
              else Some((ss + [SignatureFromBytes(rest[..SIGNATURE_LEN])], rest[SIGNATURE_LEN..]))
  {
    if n > 0 && |bs| >= SIGNATURE_LEN {
      DecodeSignaturesSnoc(n - 1, bs[SIGNATURE_LEN..]);
    }
    if n == 0 && |bs| >= SIGNATURE_LEN {
      var s := SignatureFromBytes(bs[..SIGNATURE_LEN]);
      assert [s] + [] == [] + [s];
    }
    if n > 0 && |bs| >= SIGNATURE_LEN && DecodeSignatures(n - 1, bs[SIGNATURE_LEN..]).Some? {
      var (ss, rest) := DecodeSignatures(n - 1, bs[SIGNATURE_LEN..]).value;
      var s := SignatureFromBytes(bs[..SIGNATURE_LEN]);
      if |rest| >= SIGNATURE_LEN {
        var last := SignatureFromBytes(rest[..SIGNATURE_LEN]);
        assert [s] + (ss + [last]) == ([s] + ss) + [last];
      }
    }
  }

  /** Reading that fails half-way through the signatures fails as a whole. */
  lemma {:induction false} DecodeSignaturesNone(m: nat, n: nat, bs: Bytes)
    requires m <= n && DecodeSignatures(m, bs).None?
    ensures DecodeSignatures(n, bs).None?
    decreases n - m
  {
    if m == n {
    } else {
      DecodeSignaturesSnoc(m, bs);
      DecodeSignaturesNone(m + 1, n, bs);
    }
  }

  method DeserializeFatPointer(reader: Bytes) returns (r: Option<(FatPointer, Bytes)>)
    ensures r == DecodeFatPointer(reader)
  {
    if |reader| < TEMPLATE_LEN + 2 {
      return None;
    }
    var template := reader[..TEMPLATE_LEN];
    var len := FromLE(reader[TEMPLATE_LEN..TEMPLATE_LEN + 2]);
    var rest := reader[TEMPLATE_LEN + 2..];
    ghost var body := rest;
    var signatures: seq<Signature> := [];
    for i := 0 to len
      invariant DecodeSignatures(i, body) == Some((signatures, rest))
    {
      DecodeSignaturesSnoc(i, body);
      if |rest| < SIGNATURE_LEN {
        DecodeSignaturesNone(i + 1, len, body);
        return None;
      }
      signatures := signatures + [SignatureFromBytes(rest[..SIGNATURE_LEN])];
      rest := rest[SIGNATURE_LEN..];
    }
    r := Some((FatPointer(template, signatures), rest));
  }

  // -------------------------------------------------------------------------
  // Round trips of fat pointers.

  lemma {:induction false} DecodeEncodedSignatures(ss: seq<Signature>, n: nat, rest: Bytes)
    requires n <= |ss| && forall i :: 0 <= i < |ss| ==> ValidSignature(ss[i])
    ensures DecodeSignatures(n, EncodeSignatures(ss) + rest) == Some((ss[..n], EncodeSignatures(ss[n..]) + rest))
  {
    if n > 0 {
      var bs := EncodeSignatures(ss) + rest;
      DecodeEncodedSignatures(ss[1..], n - 1, rest);
      assert bs[..SIGNATURE_LEN] == SignatureToBytes(ss[0]);
      assert bs[SIGNATURE_LEN..] == EncodeSignatures(ss[1..]) + rest;
      assert SignatureFromBytes(SignatureToBytes(ss[0])) == ss[0];
      assert ss[1..][n - 1..] == ss[n..];
      assert [ss[0]] + ss[1..][..n - 1] == ss[..n];
    } else {
      assert ss[0..] == ss;
    }
  }

  /** A fat pointer decodes back to itself, leaving any trailing bytes, exactly if its signature
    * count fits in 16 bits. Otherwise signatures are lost to the trailing bytes. */
  lemma {:induction false} FatPointerRoundTrip(p: FatPointer, rest: Bytes)
    requires ValidFatPointer(p)
    ensures var n := |p.signatures| % 0x1_0000;
            DecodeFatPointer(EncodeFatPointer(p) + rest) ==
            Some((p.(signatures := p.signatures[..n]), EncodeSignatures(p.signatures[n..]) + rest))
    ensures DecodeFatPointer(EncodeFatPointer(p) + rest) == Some((p, rest)) <==> |p.signatures| < 0x1_0000
  {
    var n := |p.signatures| % 0x1_0000;
    Widths();
    FromToLE(n, 2);
    DecodeEncodedSignatures(p.signatures, n, rest);
    FatPointerParts(p, rest);
    if |p.signatures| < 0x1_0000 {
      assert p.signatures[..n] == p.signatures && p.signatures[n..] == [];
      assert EncodeSignatures([]) + rest == rest;
    }
    hide ToLE, FromLE, EncodeFatPointer, EncodeSignatures, DecodeSignatures;
  }

  lemma {:induction false} FatPointerParts(p: FatPointer, rest: Bytes)
    requires ValidFatPointer(p)
    ensures var bs := EncodeFatPointer(p) + rest;
            && |bs| >= TEMPLATE_LEN + 2 && bs[..TEMPLATE_LEN] == p.template
            && bs[TEMPLATE_LEN..TEMPLATE_LEN + 2] == ToLE(|p.signatures| % 0x1_0000, 2)
            && bs[TEMPLATE_LEN + 2..] == EncodeSignatures(p.signatures) + rest
  {
    hide ToLE, EncodeSignatures;
  }

  lemma {:induction false} EncodeDecodedSignatures(n: nat, bs: Bytes)
    requires DecodeSignatures(n, bs).Some?
    ensures var (ss, rest) := DecodeSignatures(n, bs).value;
            |ss| == n && EncodeSignatures(ss) + rest == bs && forall i :: 0 <= i < n ==> ValidSignature(ss[i])
  {
    if n == 0 {
    } else {
      EncodeDecodedSignatures(n - 1, bs[SIGNATURE_LEN..]);
      var (tail, rest) := DecodeSignatures(n - 1, bs[SIGNATURE_LEN..]).value;
      var s := SignatureFromBytes(bs[..SIGNATURE_LEN]);
      var ss := [s] + tail;
      assert ss[1..] == tail && SignatureToBytes(s) == bs[..SIGNATURE_LEN];
      assert EncodeSignatures(ss) + rest == bs[..SIGNATURE_LEN] + (EncodeSignatures(tail) + rest);
    }
  }

  /** Only one encoding exists: what decodes is re-encoded to the same bytes. */
  lemma {:induction false} FatPointerCanonical(bs: Bytes)
    requires DecodeFatPointer(bs).Some?
    ensures var (p, rest) := DecodeFatPointer(bs).value;
            ValidFatPointer(p) && |p.signatures| < 0x1_0000 && EncodeFatPointer(p) + rest == bs
  {
    var count, body := bs[TEMPLATE_LEN..TEMPLATE_LEN + 2], bs[TEMPLATE_LEN + 2..];
    Widths();
    EncodeDecodedSignatures(FromLE(count), body);
    ToFromLE(count);
    var (p, rest) := DecodeFatPointer(bs).value;
    assert |p.signatures| == FromLE(count) < 0x1_0000 && ToLE(|p.signatures| % 0x1_0000, 2) == count;
    hide ToLE, FromLE, EncodeSignatures, DecodeSignatures;
    assert EncodeFatPointer(p) == p.template + count + EncodeSignatures(p.signatures);
    Regroup(p.template, count, EncodeSignatures(p.signatures), rest);
    assert bs == bs[..TEMPLATE_LEN] + count + body;
  }

  lemma {:induction false} Regroup(a: Bytes, b: Bytes, c: Bytes, d: Bytes)
    ensures a + b + c + d == a + b + (c + d)
  {
  }
}
