/** The mesh packet codec (packet.py): bit-packed header, transport codes, hop-sized path, payload. */
module Packets {
  import opened Bytes
  import opened Wrappers

  const TRANSPORT_FLOOD := 0
  const FLOOD := 1
  const DIRECT := 2
  const TRANSPORT_DIRECT := 3

  const TYPE_RESPONSE := 0x01
  const TYPE_TXT_MSG := 0x02
  const TYPE_ACK := 0x03
  const TYPE_ADVERT := 0x04
  const TYPE_ANON_REQ := 0x07
  const TYPE_PATH := 0x08
  const TYPE_TRACE := 0x09

  const MAX_HOPS := 0x3F
  const MAX_PATH_SIZE := 64
  const TRANSPORT_CODES_SIZE := 4

  /** Enumerations stay integers: the decoder keeps values it has no name for. */
  datatype Packet = Packet(
    routeType: int,
    payloadType: int,
    payloadVer: int,
    transportCodes: Option<(int, int)>,
    path: bytes,
    payload: bytes,
    hashSize: int)

  datatype PacketError =
    | Empty | ShortCodes | ShortPathLen | PathTooLong | ShortPath
    | MissingCodes | UnexpectedCodes | CodeOutOfRange
    | ZeroHashSize | Misaligned | BadHashSize | BadHashCount

  predicate HasTransportCodes(routeType: int) {
    routeType == TRANSPORT_FLOOD || routeType == TRANSPORT_DIRECT
  }

  predicate IsFlood(p: Packet) {
    p.routeType == FLOOD || p.routeType == TRANSPORT_FLOOD
  }

  function HashCount(p: Packet): int
    requires p.hashSize > 0
  {
    |p.path| / p.hashSize
  }

  // ---- header and path_len bytes ----

  function EncodeHeader(routeType: int, payloadType: int, payloadVer: int): byte {
    routeType % 4 + 4 * (payloadType % 16) + 64 * (payloadVer % 4)
  }

  function DecodeHeader(b: byte): (int, int, int) {
    (b % 4, b / 4 % 16, b / 64 % 4)
  }

  function EncodePathLen(hashCount: int, hashSize: int): Result<byte, PacketError> {
    if !(1 <= hashSize <= 4) then Failure(BadHashSize)
    else if !(0 <= hashCount <= MAX_HOPS) then Failure(BadHashCount)
    else Success(hashCount + 64 * (hashSize - 1))
  }

  function DecodePathLen(b: byte): (r: (nat, nat))
    ensures 0 <= r.0 <= MAX_HOPS && 1 <= r.1 <= 4
  {
    (b % 64, b / 64 + 1)
  }

  lemma HeaderInRange(routeType: int, payloadType: int, payloadVer: int)
    requires 0 <= routeType < 4 && 0 <= payloadType < 16 && 0 <= payloadVer < 4
    ensures DecodeHeader(EncodeHeader(routeType, payloadType, payloadVer)) == (routeType, payloadType, payloadVer)
  {
    var high := payloadType + 16 * payloadVer;
    var h: int := routeType + 4 * high;
    assert h % 4 == routeType && h / 4 == high && h / 64 == payloadVer;
    assert high % 16 == payloadType;
    assert routeType % 4 == routeType && payloadType % 16 == payloadType && payloadVer % 4 == payloadVer;
    assert EncodeHeader(routeType, payloadType, payloadVer) == h;
  }

  /** Both one-byte codecs are bijections between bytes and in-range fields. */
  lemma HeaderBijection(b: byte)
    ensures var h := DecodeHeader(b);
            0 <= h.0 < 4 && 0 <= h.1 < 16 && 0 <= h.2 < 4 && EncodeHeader(h.0, h.1, h.2) == b
  {
    var q: int := b / 4;
    var top: int := b / 64;
    assert top == q / 16 && top % 4 == top;
    var r, t := b % 4, q % 16;
    assert r % 4 == r && t % 16 == t;
    assert EncodeHeader(r, t, top) == r + 4 * t + 64 * top;
  }

  lemma PathLenBijection(b: byte, hashCount: int, hashSize: int)
    ensures var d := DecodePathLen(b); EncodePathLen(d.0, d.1) == Success(b)
    ensures var e := EncodePathLen(hashCount, hashSize);
            e.Success? ==> DecodePathLen(e.value) == (hashCount, hashSize)
  {
    var e := EncodePathLen(hashCount, hashSize);
    if e.Success? {
      var v: int := e.value;
      assert v / 64 == hashSize - 1;
    }
  }

  // ---- encoding ----

  function CodesWire(codes: Option<(int, int)>): bytes
    requires codes.Some? ==> IsU16(codes.value.0) && IsU16(codes.value.1)
  {
    if codes.None? then [] else Le2(codes.value.0) + Le2(codes.value.1)
  }

  predicate Encodable(p: Packet) {
    && (HasTransportCodes(p.routeType) <==> p.transportCodes.Some?)
    && (p.transportCodes.Some? ==> IsU16(p.transportCodes.value.0) && IsU16(p.transportCodes.value.1))
    && RouteFits(p.path, p.hashSize)
  }

  /** A path the encoder takes: whole hops, at most 63 of them. */
  predicate RouteFits(path: bytes, hashSize: int) {
    1 <= hashSize <= 4 && |path| % hashSize == 0 && |path| / hashSize <= MAX_HOPS
  }

  function Wire(p: Packet): bytes
    requires Encodable(p)
  {
    [EncodeHeader(p.routeType, p.payloadType, p.payloadVer)]
    + CodesWire(p.transportCodes)
    + [EncodePathLen(HashCount(p), p.hashSize).value]
    + p.path
    + p.payload
  }

  /** The first check that fails, in the encoder's order. */
  function EncodeFault(p: Packet): PacketError
    requires !Encodable(p)
  {
    var codes := p.transportCodes;
    if HasTransportCodes(p.routeType) && codes.None? then MissingCodes
    else if codes.Some? && HasTransportCodes(p.routeType) && !(IsU16(codes.value.0) && IsU16(codes.value.1)) then
      CodeOutOfRange
    else if codes.Some? && !HasTransportCodes(p.routeType) then UnexpectedCodes
    else if p.hashSize == 0 then ZeroHashSize
    else if |p.path| % p.hashSize != 0 then Misaligned
    else if !(1 <= p.hashSize <= 4) then BadHashSize
    else BadHashCount
  }

  function Encode(p: Packet): Result<bytes, PacketError> {
    if Encodable(p) then Success(Wire(p)) else Failure(EncodeFault(p))
  }

  method EncodePacket(p: Packet) returns (r: Result<bytes, PacketError>)
    ensures r == Encode(p)
  {
    var out: bytes := [EncodeHeader(p.routeType, p.payloadType, p.payloadVer)];
    if HasTransportCodes(p.routeType) {
      if p.transportCodes.None? {
        return Failure(MissingCodes);
      }
      var (a, b) := p.transportCodes.value;
      if !IsU16(a) {
        return Failure(CodeOutOfRange);
      }
      out := out + Le2(a);
      if !IsU16(b) {
        return Failure(CodeOutOfRange);
      }
      out := out + Le2(b);
    } else if p.transportCodes.Some? {
      return Failure(UnexpectedCodes);
    }
    assert out == [EncodeHeader(p.routeType, p.payloadType, p.payloadVer)] + CodesWire(p.transportCodes);
    if p.hashSize != 1 {
      if p.hashSize == 0 {
        return Failure(ZeroHashSize);
      }
      if |p.path| % p.hashSize != 0 {
        return Failure(Misaligned);
      }
    }
    var pathLen := EncodePathLen(|p.path| / p.hashSize, p.hashSize);
    if pathLen.Failure? {
      return Failure(pathLen.error);
    }
    out := out + [pathLen.value];
    out := out + p.path;
    out := out + p.payload;
    return Success(out);
  }

  // ---- decoding ----

  function PathLenAt(data: bytes): nat
    requires data != []
  {
    if HasTransportCodes(data[0] % 4) then 1 + TRANSPORT_CODES_SIZE else 1
  }

  function Decode(data: bytes): Result<Packet, PacketError> {
    if data == [] then Failure(Empty)
    else
      var (routeType, payloadType, payloadVer) := DecodeHeader(data[0]);
      var at := PathLenAt(data);
      if |data| < at then Failure(ShortCodes)
      else if |data| == at then Failure(ShortPathLen)
      else
        var (hops, hashSize) := DecodePathLen(data[at]);
        var from := at + 1;
        var to := from + hops * hashSize;
        if hops * hashSize > MAX_PATH_SIZE then Failure(PathTooLong)
        else if |data| < to then Failure(ShortPath)
        else
          var codes := if at == 1 then None else Some((FromLe2(data[1..3]), FromLe2(data[3..5])));
          Success(Packet(routeType, payloadType, payloadVer, codes, data[from..to], data[to..], hashSize))
  }

  method DecodePacket(data: bytes) returns (r: Result<Packet, PacketError>)
    ensures r == Decode(data)
  {
    if data == [] {
      return Failure(Empty);
    }
    var i := 0;
    var (routeType, payloadType, payloadVer) := DecodeHeader(data[i]);
    i := i + 1;
    var codes: Option<(int, int)> := None;
    if HasTransportCodes(routeType) {
      if |data| < i + TRANSPORT_CODES_SIZE {
        return Failure(ShortCodes);
      }
      codes := Some((FromLe2(data[i..i + 2]), FromLe2(data[i + 2..i + 4])));
      i := i + TRANSPORT_CODES_SIZE;
    }
    if |data| < i + 1 {
      return Failure(ShortPathLen);
    }
    var (hops, hashSize) := DecodePathLen(data[i]);
    i := i + 1;
    var pathBytes := hops * hashSize;
    if pathBytes > MAX_PATH_SIZE {
      return Failure(PathTooLong);
    }
    if |data| < i + pathBytes {
      return Failure(ShortPath);
    }
    var path := data[i..i + pathBytes];
    i := i + pathBytes;
    return Success(Packet(routeType, payloadType, payloadVer, codes, path, data[i..], hashSize));
  }

  // ---- the two are inverse ----

  predicate InRange(p: Packet) {
    0 <= p.routeType < 4 && 0 <= p.payloadType < 16 && 0 <= p.payloadVer < 4
  }

  /** The packets that exist on the air: exactly the decoder's image. */
  predicate WellFormed(p: Packet) {
    InRange(p) && Encodable(p) && |p.path| <= MAX_PATH_SIZE
  }

  lemma WholeHops(hops: nat, hashSize: nat)
    requires 1 <= hashSize <= 4
    ensures hops * hashSize % hashSize == 0 && hops * hashSize / hashSize == hops
  {
    if hashSize == 1 {
    } else if hashSize == 2 {
    } else if hashSize == 3 {
    } else {
    }
  }

  lemma HopsOf(length: nat, hashSize: nat)
    requires 1 <= hashSize <= 4 && length % hashSize == 0
    ensures length / hashSize * hashSize == length
  {
  }

  /** encode(decode(b)) == b for every byte string that decodes, unknown types included. */
  lemma EncodeOfDecode(data: bytes)
    requires Decode(data).Success?
    ensures WellFormed(Decode(data).value)
    ensures Encode(Decode(data).value) == Success(data)
  {
    var p := Decode(data).value;
    var at := PathLenAt(data);
    var (hops, hashSize) := DecodePathLen(data[at]);
    var from, to := at + 1, at + 1 + hops * hashSize;
    assert |p.path| == hops * hashSize;
    assert HashCount(p) == hops && RouteFits(p.path, hashSize) by {
      WholeHops(hops, hashSize);
    }
    PathLenBijection(data[at], hops, hashSize);
    HeaderBijection(data[0]);
    CodesOf(data);
    assert data == [data[0]] + data[1..at] + [data[at]] + data[from..to] + data[to..];
  }

  lemma CodesOf(data: bytes)
    requires data != [] && |data| >= PathLenAt(data)
    ensures var at := PathLenAt(data);
            var codes := if at == 1 then None else Some((FromLe2(data[1..3]), FromLe2(data[3..5])));
            CodesWire(codes) == data[1..at]
  {
    if PathLenAt(data) != 1 {
      Le2OfFromLe2(data[1..3]);
      Le2OfFromLe2(data[3..5]);
      assert data[1..5] == data[1..3] + data[3..5];
    }
  }

  lemma FiveParts(h: byte, codes: bytes, len: byte, path: bytes, payload: bytes)
    ensures var w := [h] + codes + [len] + path + payload;
            var at := 1 + |codes|;
            && |w| == at + 1 + |path| + |payload|
            && w[0] == h
            && w[at] == len
            && w[1..at] == codes
            && w[at + 1..at + 1 + |path|] == path
            && w[at + 1 + |path|..] == payload
  {
  }

  /** Where each field of a wire image lies. */
  lemma WireLayout(p: Packet)
    requires Encodable(p) && InRange(p)
    ensures var w := Wire(p);
            var at := PathLenAt(w);
            && |w| == at + 1 + |p.path| + |p.payload|
            && DecodeHeader(w[0]) == (p.routeType, p.payloadType, p.payloadVer)
            && DecodePathLen(w[at]) == (|p.path| / p.hashSize, p.hashSize)
            && w[1..at] == CodesWire(p.transportCodes)
            && w[at + 1..at + 1 + |p.path|] == p.path
            && w[at + 1 + |p.path|..] == p.payload
  {
    var h := EncodeHeader(p.routeType, p.payloadType, p.payloadVer);
    var len := EncodePathLen(HashCount(p), p.hashSize).value;
    FiveParts(h, CodesWire(p.transportCodes), len, p.path, p.payload);
    var w := Wire(p);
    assert w[0] == h;
    HeaderInRange(p.routeType, p.payloadType, p.payloadVer);
    assert 1 + |CodesWire(p.transportCodes)| == PathLenAt(w);
    assert DecodePathLen(len) == (HashCount(p), p.hashSize) by {
      PathLenBijection(0, HashCount(p), p.hashSize);
    }
  }

  /**
    The bytes of a packet: header bits, little-endian transport codes if any, hop count and hop size, path, payload.
   */
  lemma WireBytes(p: Packet)
    requires WellFormed(p)
    ensures Wire(p) ==
      [p.routeType + 4 * p.payloadType + 64 * p.payloadVer]
      + (match p.transportCodes
         case None => []
         case Some((a, b)) => [a % 256, a / 256, b % 256, b / 256])
      + [|p.path| / p.hashSize + 64 * (p.hashSize - 1)] + p.path + p.payload
  {
    assert p.routeType % 4 == p.routeType && p.payloadType % 16 == p.payloadType && p.payloadVer % 4 == p.payloadVer;
  }

  /** An encodable packet decodes to itself iff its fields are in range and its path fits 64 bytes. */
  lemma DecodeOfEncode(p: Packet)
    requires Encodable(p)
    ensures Decode(Wire(p)) == Success(p) <==> WellFormed(p)
  {
    if WellFormed(p) {
      var w := Wire(p);
      var at := PathLenAt(w);
      WireLayout(p);
      HopsOf(|p.path|, p.hashSize);
      if p.transportCodes.Some? {
        assert w[1..5] == Le2(p.transportCodes.value.0) + Le2(p.transportCodes.value.1);
        assert w[1..3] == w[1..5][..2] && w[3..5] == w[1..5][2..];
      }
    } else if Decode(Wire(p)) == Success(p) {
      EncodeOfDecode(Wire(p));
    }
  }

  /** Whatever else it carries, a packet with a path over 64 bytes encodes and is refused by every decoder. */
  lemma LongPathRefused(p: Packet)
    requires Encodable(p) && InRange(p) && |p.path| > MAX_PATH_SIZE
    ensures Decode(Wire(p)) == Failure(PathTooLong)
  {
    WireLayout(p);
    HopsOf(|p.path|, p.hashSize);
  }

  /** The decoder accepts exactly the images of well-formed packets, each from one packet only. */
  lemma DecoderImage(data: bytes, p: Packet)
    ensures WellFormed(p) && Wire(p) == data <==> Decode(data) == Success(p)
  {
    if WellFormed(p) && Wire(p) == data {
      DecodeOfEncode(p);
    }
    if Decode(data) == Success(p) {
      EncodeOfDecode(data);
    }
  }
}
