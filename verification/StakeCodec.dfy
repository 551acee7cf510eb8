// The unsigned staking transaction the API hands to a wallet, and the check of
// the signed one it gets back (stake_handlers.go).  Lengths are unsigned LEB128
// (section 7.6 of DWARF version 5), amounts and heights big-endian.
module StakeCodec {
  import opened Prelude
  import opened Arithmetic

  newtype byte = x: int | 0 <= x < 256

  type Bytes = seq<byte>
  type Address = s: Bytes | |s| == 20 witness seq(20, _ => 0)

  datatype Transaction = Transaction(
    sender: Address, senderType: byte, senderData: Bytes,
    recipient: Address, recipientType: byte, recipientData: Bytes,
    value: uint64, fee: uint64, validityStartHeight: uint32,
    network: byte, flags: byte)

  // The SDK's tag of the extended format; only its being one byte matters here.
  const EXTENDED: byte := 1

  // ---- lengths --------------------------------------------------------------

  function Uvarint(v: nat): Bytes {
    if v < 128 then [v as byte] else [(v % 128 + 128) as byte] + Uvarint(v / 128)
  }

  method AppendUvarint(b: Bytes, v: uint64) returns (r: Bytes)
    ensures r == b + Uvarint(v as nat)
  {
    r := b;
    var rest: nat := v as nat;
    while rest >= 128
      invariant r + Uvarint(rest) == b + Uvarint(v as nat)
    {
      r := r + [(rest % 128 + 128) as byte];
      rest := rest / 128;
    }
    r := r + [rest as byte];
  }

  // The value at the front of b, and how many bytes it took.
  function DecodeUvarint(b: Bytes): (r: Option<(nat, nat)>)
    ensures r.Some? ==> 0 < r.value.1 <= |b|
  {
    if b == [] then None
    else if b[0] < 128 then Some((b[0] as nat, 1))
    else
      match DecodeUvarint(b[1..])
      case None => None
      case Some((high, used)) => Some((high * 128 + b[0] as nat - 128, used + 1))
  }

  // Decoding undoes encoding, whatever follows.
  lemma {:induction false} UvarintRoundTrip(v: nat, suffix: Bytes)
    ensures DecodeUvarint(Uvarint(v) + suffix) == Some((v, |Uvarint(v)|))
  {
    if v >= 128 {
      UvarintRoundTrip(v / 128, suffix);
      assert (Uvarint(v) + suffix)[1..] == Uvarint(v / 128) + suffix;
    }
  }

  // No encoding of the same value is shorter.
  lemma {:induction false} UvarintIsMinimal(b: Bytes)
    requires DecodeUvarint(b).Some?
    ensures |Uvarint(DecodeUvarint(b).value.0)| <= DecodeUvarint(b).value.1
  {
    if b[0] >= 128 {
      UvarintIsMinimal(b[1..]);
      var high := DecodeUvarint(b[1..]).value.0;
      assert (high * 128 + b[0] as nat - 128) / 128 == high;
    }
  }

  function Power(base: nat, n: nat): (p: nat)
    ensures base > 0 ==> p > 0
  {
    if n == 0 then 1 else base * Power(base, n - 1)
  }

  // It takes n bytes at most exactly below 128^n.
  lemma {:induction false} UvarintLength(v: nat, n: nat)
    requires n > 0
    ensures |Uvarint(v)| <= n <==> v < Power(128, n)
  {
    if n == 1 {
      assert Power(128, 1) == 128 * Power(128, 0);
    } else if v >= 128 {
      UvarintLength(v / 128, n - 1);
      assert v / 128 < Power(128, n - 1) <==> v < 128 * Power(128, n - 1);
    }
  }

  lemma DivDiv(v: nat, a: nat, b: nat)
    requires a > 0 && b > 0
    ensures v / a / b == v / (a * b)
  {
    Digits(v, a);
    Digits(v / a, b);
    TwoDigits(v, v / a, v / a / b, v / a % b, v % a, a, b);
  }

  lemma Digits(n: nat, d: nat)
    requires d > 0
    ensures n == n / d * d + n % d && n % d < d
  {
  }

  lemma TwoDigits(v: nat, x: nat, q: nat, mid: nat, low: nat, a: nat, b: nat)
    requires mid < b && low < a && v == x * a + low && x == q * b + mid
    ensures a * b > 0 && v / (a * b) == q
  {
    assert v == q * (a * b) + (mid * a + low);
    MulMono(mid, b - 1, a);
    assert (b - 1) * a == a * b - a;
    Quotient(v, a * b, q, mid * a + low);
  }

  lemma Quotient(n: nat, d: nat, q: nat, r: nat)
    requires r < d && n == q * d + r
    ensures n / d == q
  {
    var p := n / d;
    assert n == p * d + n % d;
    if p < q { MulMono(p + 1, q, d); }
    if p > q { MulMono(q + 1, p, d); }
  }

  // Seven bits a byte, the least significant first; every byte but the last has its
  // top bit set.
  lemma {:induction false} UvarintAt(v: nat, k: nat)
    requires k < |Uvarint(v)|
    ensures Uvarint(v)[k] as nat == v / Power(128, k) % 128 + if k < |Uvarint(v)| - 1 then 128 else 0
  {
    if k > 0 {
      UvarintAt(v / 128, k - 1);
      DivDiv(v, 128, Power(128, k - 1));
    }
  }

  // Ten bytes are enough for 64 bits.
  lemma UvarintFitsTenBytes(v: uint64)
    ensures |Uvarint(v as nat)| <= 10
  {
    UvarintLength(v as nat, 10);
    assert Power(128, 5) == 0x8_0000_0000;
    assert Power(128, 10) == 0x40_0000_0000_0000_0000;
  }

  // ---- fixed-width numbers -----------------------------------------------------

  function BigEndian(v: nat, width: nat): (b: Bytes)
    ensures |b| == width
  {
    if width == 0 then [] else BigEndian(v / 256, width - 1) + [(v % 256) as byte]
  }

  function FromBigEndian(b: Bytes): nat {
    if b == [] then 0 else FromBigEndian(b[..|b| - 1]) * 256 + b[|b| - 1] as nat
  }

  lemma {:induction false} BigEndianRoundTrip(v: nat, width: nat)
    requires v < Power(256, width)
    ensures FromBigEndian(BigEndian(v, width)) == v
  {
    if width > 0 {
      assert v / 256 < Power(256, width - 1);
      BigEndianRoundTrip(v / 256, width - 1);
      assert BigEndian(v, width)[..width - 1] == BigEndian(v / 256, width - 1);
    }
  }

  // The most significant byte comes first.
  lemma {:induction false} BigEndianAt(v: nat, width: nat, k: nat)
    requires k < width
    ensures BigEndian(v, width)[k] as nat == v / Power(256, width - 1 - k) % 256
  {
    if k < width - 1 {
      BigEndianAt(v / 256, width - 1, k);
      DivDiv(v, 256, Power(256, width - 2 - k));
    }
  }

  // The bytes of v in base 256, from its highest digit to its lowest.
  predicate HighestFirst(b: Bytes, v: nat) {
    forall k :: 0 <= k < |b| ==> b[k] as nat == v / Power(256, |b| - 1 - k) % 256
  }

  lemma BigEndianIs(v: nat, width: nat)
    ensures HighestFirst(BigEndian(v, width), v)
  {
    forall k | 0 <= k < width ensures BigEndian(v, width)[k] as nat == v / Power(256, width - 1 - k) % 256 {
      BigEndianAt(v, width, k);
    }
  }

  lemma Widths()
    ensures Power(256, 4) == 0x1_0000_0000
    ensures Power(256, 8) == 0x1_0000_0000_0000_0000
  {
    assert Power(256, 2) == 0x1_0000;
  }

  // ---- the transaction -----------------------------------------------------------

  // Everything up to the recipient data, whose length it announces.
  datatype Header = Header(
    sender: Address, senderType: byte, senderData: Bytes, recipient: Address, recipientType: byte, length: nat)

  datatype Trailer = Trailer(value: uint64, fee: uint64, validityStartHeight: uint32, network: byte, flags: byte)

  function HeaderOf(t: Transaction): Header {
    Header(t.sender, t.senderType, t.senderData, t.recipient, t.recipientType, |t.recipientData|)
  }

  function TrailerOf(t: Transaction): Trailer {
    Trailer(t.value, t.fee, t.validityStartHeight, t.network, t.flags)
  }

  function EncodeHeader(h: Header): Bytes {
    [EXTENDED] + EncodeParty(h.sender, h.senderType, |h.senderData|) + h.senderData
    + EncodeParty(h.recipient, h.recipientType, h.length)
  }

  // An address, its type, and how many bytes of data follow.
  function EncodeParty(address: Address, kind: byte, length: nat): Bytes {
    address + [kind] + Uvarint(length)
  }

  function EncodeTrailer(t: Trailer): (b: Bytes)
    ensures |b| == 23
  {
    BigEndian(t.value as nat, 8) + BigEndian(t.fee as nat, 8) + BigEndian(t.validityStartHeight as nat, 4)
    + [t.network, t.flags] + Uvarint(0)
  }

  function Encode(t: Transaction): Bytes {
    EncodeHeader(HeaderOf(t)) + t.recipientData + EncodeTrailer(TrailerOf(t))
  }

  method UnsignedStakingBytes(t: Transaction) returns (b: Bytes)
    requires |t.senderData| < 0x1_0000_0000_0000_0000 && |t.recipientData| < 0x1_0000_0000_0000_0000
    ensures b == Encode(t)
  {
    b := [EXTENDED];
    b := b + t.sender;
    b := b + [t.senderType];
    b := AppendUvarint(b, |t.senderData| as uint64);
    b := b + t.senderData;
    b := b + t.recipient;
    b := b + [t.recipientType];
    b := AppendUvarint(b, |t.recipientData| as uint64);
    assert b == EncodeHeader(HeaderOf(t));
    b := b + t.recipientData;
    ghost var start := b;
    b := b + BigEndian(t.value as nat, 8);
    b := b + BigEndian(t.fee as nat, 8);
    b := b + BigEndian(t.validityStartHeight as nat, 4);
    b := b + [t.network];
    b := b + [t.flags];
    b := AppendUvarint(b, 0);
    assert b == start + EncodeTrailer(TrailerOf(t));
  }

  // ---- reading it back --------------------------------------------------------------

  function DecodeParty(b: Bytes): (r: Option<(Address, byte, nat, Bytes)>) {
    if |b| < 21 then None
    else
      match DecodeUvarint(b[21..])
      case None => None
      case Some((length, used)) => Some((b[..20], b[20], length, b[21 + used..]))
  }

  function DecodeHeader(b: Bytes): (r: Option<(Header, Bytes)>) {
    if b == [] || b[0] != EXTENDED then None
    else
      match DecodeParty(b[1..])
      case None => None
      case Some((sender, senderType, n, b')) =>
        if |b'| < n then None
        else
          match DecodeParty(b'[n..])
          case None => None
          case Some((recipient, recipientType, length, rest)) =>
            Some((Header(sender, senderType, b'[..n], recipient, recipientType, length), rest))
  }

  function DecodeTrailer(b: Bytes): Option<Trailer>
    requires |b| == 23
  {
    var value, fee, height := FromBigEndian(b[..8]), FromBigEndian(b[8..16]), FromBigEndian(b[16..20]);
    if value >= 0x1_0000_0000_0000_0000 || fee >= 0x1_0000_0000_0000_0000 || height >= 0x1_0000_0000 || b[22] != 0
    then None
    else Some(Trailer(value as uint64, fee as uint64, height as uint32, b[20], b[21]))
  }

  function Decode(b: Bytes): Option<(Transaction, Bytes)> {
    match DecodeHeader(b)
    case None => None
    case Some((h, rest)) =>
      if |rest| < h.length + 23 then None
      else
        match DecodeTrailer(rest[h.length..h.length + 23])
        case None => None
        case Some(t) => Some((Joined(h, rest[..h.length], t), rest[h.length + 23..]))
  }

  function Joined(h: Header, recipientData: Bytes, t: Trailer): Transaction {
    Transaction(h.sender, h.senderType, h.senderData, h.recipient, h.recipientType, recipientData,
                t.value, t.fee, t.validityStartHeight, t.network, t.flags)
  }

  lemma PartyRoundTrip(address: Address, kind: byte, length: nat, suffix: Bytes)
    ensures DecodeParty(EncodeParty(address, kind, length) + suffix) == Some((address, kind, length, suffix))
  {
    var b := EncodeParty(address, kind, length) + suffix;
    assert b[21..] == Uvarint(length) + suffix;
    UvarintRoundTrip(length, suffix);
    assert b[..20] == address && b[21 + |Uvarint(length)|..] == suffix;
  }

  lemma HeaderRoundTrip(h: Header, suffix: Bytes)
    ensures DecodeHeader(EncodeHeader(h) + suffix) == Some((h, suffix))
  {
    var first, second := EncodeParty(h.sender, h.senderType, |h.senderData|), EncodeParty(h.recipient, h.recipientType, h.length);
    HeaderParts(first, h.senderData, second, suffix);
    PartyRoundTrip(h.sender, h.senderType, |h.senderData|, h.senderData + (second + suffix));
    PartyRoundTrip(h.recipient, h.recipientType, h.length, suffix);
  }

  lemma HeaderParts(first: Bytes, data: Bytes, second: Bytes, suffix: Bytes)
    ensures var b, tail := [EXTENDED] + first + data + second + suffix, data + (second + suffix);
            && b != [] && b[0] == EXTENDED && b[1..] == first + tail
            && |data| <= |tail| && tail[..|data|] == data && tail[|data|..] == second + suffix
  {
  }

  lemma TrailerRoundTrip(t: Trailer)
    ensures DecodeTrailer(EncodeTrailer(t)) == Some(t)
  {
    Widths();
    BigEndianRoundTrip(t.value as nat, 8);
    BigEndianRoundTrip(t.fee as nat, 8);
    BigEndianRoundTrip(t.validityStartHeight as nat, 4);
    var b := EncodeTrailer(t);
    assert b[..8] == BigEndian(t.value as nat, 8);
    assert b[8..16] == BigEndian(t.fee as nat, 8);
    assert b[16..20] == BigEndian(t.validityStartHeight as nat, 4);
  }

  // Decoding the unsigned bytes gives back every field, whatever follows them.
  lemma RoundTrip(t: Transaction, suffix: Bytes)
    ensures Decode(Encode(t) + suffix) == Some((t, suffix))
  {
    var h, data, trailer := HeaderOf(t), t.recipientData, EncodeTrailer(TrailerOf(t));
    Pieces(EncodeHeader(h), data, trailer, suffix);
    HeaderRoundTrip(h, data + trailer + suffix);
    TrailerRoundTrip(TrailerOf(t));
  }

  lemma Pieces(header: Bytes, data: Bytes, trailer: Bytes, suffix: Bytes)
    ensures header + data + trailer + suffix == header + (data + trailer + suffix)
    ensures var rest, n, m := data + trailer + suffix, |data|, |data| + |trailer|;
            rest[..n] == data && rest[n..m] == trailer && rest[m..] == suffix
  {
  }

  // So no two transactions share their bytes, nor does one begin another.
  lemma Injective(x: Transaction, y: Transaction, s: Bytes, t: Bytes)
    requires Encode(x) + s == Encode(y) + t
    ensures x == y && s == t
  {
    RoundTrip(x, s);
    RoundTrip(y, t);
  }

  // Where the fields are when there is no sender data and the payload has 120
  // bytes, as for a new staker with a delegation.
  lemma CreateStakerLayout(t: Transaction)
    requires t.senderData == [] && |t.recipientData| == 120
    ensures var b := Encode(t);
            && |b| == 188 && b[0] == EXTENDED && b[1..21] == t.sender && b[21] == t.senderType && b[22] == 0
            && b[23..43] == t.recipient && b[43] == t.recipientType && b[44] == 120 && b[45..165] == t.recipientData
            && HighestFirst(b[165..173], t.value as nat) && HighestFirst(b[173..181], t.fee as nat)
            && HighestFirst(b[181..185], t.validityStartHeight as nat)
            && b[185] == t.network && b[186] == t.flags && b[187] == 0
  {
    var b, header, trailer := Encode(t), EncodeHeader(HeaderOf(t)), EncodeTrailer(TrailerOf(t));
    assert |header| == 45;
    assert b[..45] == header && b[45..165] == t.recipientData && b[165..188] == trailer;
    assert b[165..173] == trailer[..8] && b[173..181] == trailer[8..16] && b[181..185] == trailer[16..20];
    assert b[185] == trailer[20] && b[186] == trailer[21] && b[187] == trailer[22];
    assert header[1..21] == t.sender && header[23..43] == t.recipient;
    assert b[1..21] == header[1..21] && b[23..43] == header[23..43];
    BigEndianIs(t.value as nat, 8);
    BigEndianIs(t.fee as nat, 8);
    BigEndianIs(t.validityStartHeight as nat, 4);
  }

  // ---- the check of the signed transaction ---------------------------------------------

  // One algorithm byte, a key, a Merkle path byte and a signature.
  const INNER_PROOF: nat := 1 + 32 + 1 + 64

  // The quoted payload always ends with an inner proof.
  predicate StakeTxMatches(got: Transaction, want: Transaction)
    requires |want.recipientData| >= INNER_PROOF
  {
    && got.sender == want.sender && got.senderType == want.senderType
    && got.recipient == want.recipient && got.recipientType == want.recipientType
    && got.value == want.value && got.fee == want.fee
    && got.validityStartHeight == want.validityStartHeight
    && got.network == want.network && got.flags == want.flags
    && |got.recipientData| == |want.recipientData|
    && var prefix := |want.recipientData| - INNER_PROOF;
       got.recipientData[..prefix] == want.recipientData[..prefix]
  }

  // Where the inner proof, which has 98 bytes, starts in the encoding.
  function ProofStart(t: Transaction): nat
    requires |t.recipientData| >= INNER_PROOF
  {
    |EncodeHeader(HeaderOf(t))| + |t.recipientData| - 98
  }

  predicate AgreeOutside(x: Bytes, y: Bytes, from: nat) {
    |x| == |y| && forall k :: 0 <= k < |x| && !(from <= k < from + 98) ==> x[k] == y[k]
  }

  // Agreeing up to the inner proof includes the whole header, so the rest lines up.
  lemma AgreeingHeaders(got: Transaction, want: Transaction)
    requires |want.recipientData| >= INNER_PROOF && AgreeOutside(Encode(got), Encode(want), ProofStart(want))
    ensures HeaderOf(got) == HeaderOf(want)
  {
    var n := |EncodeHeader(HeaderOf(want))|;
    var x := Encode(got);
    SameStart(EncodeHeader(HeaderOf(want)), want.recipientData, EncodeTrailer(TrailerOf(want)), x, ProofStart(want));
    HeaderRoundTrip(HeaderOf(want), x[n..]);
    var rest := got.recipientData + EncodeTrailer(TrailerOf(got));
    Pieces(EncodeHeader(HeaderOf(got)), got.recipientData, EncodeTrailer(TrailerOf(got)), []);
    assert rest + [] == rest && x + [] == x;
    HeaderRoundTrip(HeaderOf(got), rest);
  }

  lemma SameStart(header: Bytes, data: Bytes, trailer: Bytes, x: Bytes, from: nat)
    requires AgreeOutside(x, header + data + trailer, from) && |header| <= from
    ensures x == header + x[|header|..]
  {
    forall k | 0 <= k < |header| ensures x[k] == header[k] {
      assert x[k] == (header + data + trailer)[k];
    }
  }

  lemma AgreeingPieces(header: Bytes, data: Bytes, data': Bytes, trailer: Bytes, trailer': Bytes)
    requires |data| == |data'| >= INNER_PROOF && |trailer| == |trailer'|
    ensures AgreeOutside(header + data + trailer, header + data' + trailer', |header| + |data| - INNER_PROOF) <==>
            var prefix := |data| - INNER_PROOF;
            data[..prefix] == data'[..prefix] && trailer == trailer'
  {
    var h, n, prefix := |header|, |data|, |data| - INNER_PROOF;
    var x, y := header + data + trailer, header + data' + trailer';
    if AgreeOutside(x, y, h + prefix) {
      forall k | 0 <= k < prefix ensures data[k] == data'[k] {
        assert x[h + k] == y[h + k];
      }
      forall k | 0 <= k < |trailer| ensures trailer[k] == trailer'[k] {
        assert x[h + n + k] == y[h + n + k];
      }
    }
    if data[..prefix] == data'[..prefix] && trailer == trailer' {
      forall k | 0 <= k < |x| && !(h + prefix <= k < h + prefix + INNER_PROOF) ensures x[k] == y[k] {
        if h <= k < h + prefix { assert data[..prefix][k - h] == data'[..prefix][k - h]; }
      }
    }
  }

  lemma AgreeingParts(got: Transaction, want: Transaction)
    requires |want.recipientData| >= INNER_PROOF && HeaderOf(got) == HeaderOf(want)
    ensures AgreeOutside(Encode(got), Encode(want), ProofStart(want)) <==>
            var prefix := |want.recipientData| - INNER_PROOF;
            got.recipientData[..prefix] == want.recipientData[..prefix] && TrailerOf(got) == TrailerOf(want)
  {
    AgreeingPieces(EncodeHeader(HeaderOf(want)), got.recipientData, want.recipientData,
      EncodeTrailer(TrailerOf(got)), EncodeTrailer(TrailerOf(want)));
    TrailerRoundTrip(TrailerOf(got));
    TrailerRoundTrip(TrailerOf(want));
  }

  // The check accepts a transaction exactly when its encoding, given the quoted
  // sender data, agrees with the quoted one outside the inner proof.
  lemma MatchesExactly(got: Transaction, want: Transaction)
    requires |want.recipientData| >= INNER_PROOF
    ensures StakeTxMatches(got, want) <==>
            AgreeOutside(Encode(got.(senderData := want.senderData)), Encode(want), ProofStart(want))
  {
    var same := got.(senderData := want.senderData);
    if AgreeOutside(Encode(same), Encode(want), ProofStart(want)) { AgreeingHeaders(same, want); }
    if HeaderOf(same) == HeaderOf(want) { AgreeingParts(same, want); }
  }

  // Sender data is not compared at all: any may be added to an accepted one.
  lemma SenderDataIsNotCompared(got: Transaction, want: Transaction, senderData: Bytes)
    requires |want.recipientData| >= INNER_PROOF && StakeTxMatches(got, want)
    ensures StakeTxMatches(got.(senderData := senderData), want)
    ensures senderData != want.senderData ==>
              !AgreeOutside(Encode(got.(senderData := senderData)), Encode(want), ProofStart(want))
  {
    var other := got.(senderData := senderData);
    if AgreeOutside(Encode(other), Encode(want), ProofStart(want)) { AgreeingHeaders(other, want); }
  }
}
