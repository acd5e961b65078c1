/** Direct text, PATH and ACK payloads, and delivery with retries (messaging.py). */
module Messaging {
  import opened Bytes
  import opened Wrappers
  import opened Packets
  import opened Crypto

  const ACK_HASH_SIZE := 4
  const TXT_TYPE_PLAIN := 0
  const TXT_TYPE_SIGNED_PLAIN := 2
  const HEADER_SIZE := 2
  const MIN_DATAGRAM := HEADER_SIZE + MAC_SIZE + BLOCK

  datatype TxtMsg = TxtMsg(destHash: byte, srcHash: byte, timestamp: int, attempt: int, text: bytes, txtType: int)
  datatype PathMsg = PathMsg(destHash: byte, srcHash: byte, path: bytes, hashSize: int, extraType: int, extra: bytes)

  /** The one-byte routing address of a key. */
  function PathHash(pubKey: bytes): byte
    requires pubKey != []
  {
    pubKey[0]
  }

  /** dest_hash, src_hash, then the sealed inner plaintext. */
  function Datagram(c: Suite, secret: bytes, destHash: int, srcHash: int, inner: bytes): bytes
    requires |secret| >= BLOCK
  {
    [destHash % 256, srcHash % 256] + Seal(c, secret, inner)
  }

  function OpenDatagram(c: Suite, secret: bytes, payload: bytes): (inner: Option<bytes>)
    requires |secret| >= BLOCK
    ensures inner.Some? ==> |payload| >= MIN_DATAGRAM && |inner.value| >= BLOCK
  {
    if |payload| < MIN_DATAGRAM then None else Open(c, secret, payload[HEADER_SIZE..])
  }

  lemma DatagramOpens(c: Suite, secret: bytes, destHash: int, srcHash: int, inner: bytes)
    requires |secret| >= BLOCK && inner != []
    ensures var d := Datagram(c, secret, destHash, srcHash, inner);
            OpenDatagram(c, secret, d) == Some(Pad(inner)) && d[0] == destHash % 256 && d[1] == srcHash % 256
  {
    SealOpens(c, secret, inner);
    SealedSize(c, secret, inner);
    var d := Datagram(c, secret, destHash, srcHash, inner);
    assert d[HEADER_SIZE..] == Seal(c, secret, inner);
  }

  // ---- text messages ----

  predicate IsTxtType(txtType: int) {
    0 <= txtType < 64
  }

  function FlagsByte(attempt: int, txtType: int): byte
    requires IsTxtType(txtType)
  {
    attempt % 4 + 4 * txtType
  }

  /** timestamp, flags, text: the part of the plaintext the ACK covers. */
  function ThroughText(timestamp: int, attempt: int, text: bytes, txtType: int): bytes
    requires IsU32(timestamp) && IsTxtType(txtType)
  {
    Le4(timestamp) + [FlagsByte(attempt, txtType)] + text
  }

  function ComposePlaintext(timestamp: int, attempt: int, text: bytes, txtType: int): bytes
    requires IsU32(timestamp) && IsTxtType(txtType)
  {
    ThroughText(timestamp, attempt, text, txtType) + [0]
  }

  function AckInput(timestamp: int, attempt: int, text: bytes, senderPubKey: bytes, txtType: int): bytes
    requires IsU32(timestamp) && IsTxtType(txtType)
  {
    ThroughText(timestamp, attempt, text, txtType) + senderPubKey
  }

  function AckHashFor(c: Suite, timestamp: int, attempt: int, text: bytes, senderPubKey: bytes,
                      txtType: int): (h: bytes)
    requires IsU32(timestamp) && IsTxtType(txtType)
    ensures |h| == ACK_HASH_SIZE
  {
    c.sha256(AckInput(timestamp, attempt, text, senderPubKey, txtType))[..ACK_HASH_SIZE]
  }

  /** TxtMsg.ack_hash: what the recipient of `m` sends back. */
  function AckHash(c: Suite, m: TxtMsg, senderPubKey: bytes): (h: bytes)
    requires IsU32(m.timestamp) && IsTxtType(m.txtType)
    ensures |h| == ACK_HASH_SIZE
  {
    AckHashFor(c, m.timestamp, m.attempt, m.text, senderPubKey, m.txtType)
  }

  function TryDecryptTxt(c: Suite, payload: bytes, secret: bytes): (m: Option<TxtMsg>)
    requires |secret| >= BLOCK
    ensures m.Some? ==> |payload| >= MIN_DATAGRAM && IsU32(m.value.timestamp) && IsTxtType(m.value.txtType)
    ensures m.Some? ==> m.value.srcHash == payload[1]
  {
    match OpenDatagram(c, secret, payload)
    case None => None
    case Some(plain) =>
      Some(TxtMsg(payload[0], payload[1], FromLe4(plain[..4]), plain[4] % 4, CutNul(plain[5..]), plain[4] / 4))
  }

  /**
    Sealing any text message and opening it gives back timestamp, the two attempt bits, the type and
    the text up to its first NUL; so text comes back whole iff it is NUL-free.
   */
  lemma TxtRoundTrip(c: Suite, secret: bytes, destHash: int, srcHash: int,
                     timestamp: int, attempt: int, text: bytes, txtType: int)
    requires |secret| >= BLOCK && IsU32(timestamp) && IsTxtType(txtType)
    ensures var inner := ComposePlaintext(timestamp, attempt, text, txtType);
            TryDecryptTxt(c, Datagram(c, secret, destHash, srcHash, inner), secret) ==
              Some(TxtMsg(destHash % 256, srcHash % 256, timestamp, attempt % 4, CutNul(text), txtType))
    ensures CutNul(text) == text <==> NulFree(text)
  {
    var inner := ComposePlaintext(timestamp, attempt, text, txtType);
    DatagramOpens(c, secret, destHash, srcHash, inner);
    CutNulIdentity(text);
    TextFields(timestamp, attempt, text, txtType, Zeros(PadLength(|inner|)));
  }

  lemma TextFields(timestamp: int, attempt: int, text: bytes, txtType: int, zeros: bytes)
    requires IsU32(timestamp) && IsTxtType(txtType)
    ensures var plain := ComposePlaintext(timestamp, attempt, text, txtType) + zeros;
            && FromLe4(plain[..4]) == timestamp && plain[4] % 4 == attempt % 4 && plain[4] / 4 == txtType
            && CutNul(plain[5..]) == CutNul(text)
  {
    var plain, flags := ComposePlaintext(timestamp, attempt, text, txtType) + zeros, FlagsByte(attempt, txtType);
    FlagsFields(attempt, txtType);
    assert plain[..4] == Le4(timestamp) && plain[4] == flags;
    assert plain[5..] == text + [0] + zeros;
    CutNulTerminated(text, zeros);
  }

  lemma FlagsFields(attempt: int, txtType: int)
    requires IsTxtType(txtType)
    ensures FlagsByte(attempt, txtType) % 4 == attempt % 4 && FlagsByte(attempt, txtType) / 4 == txtType
  {
    var low: int := attempt % 4;
    assert (low + 4 * txtType) / 4 == txtType;
  }

  function TxtPacket(c: Suite, secret: bytes, destPubKey: bytes, srcPubKey: bytes, timestamp: int, attempt: int,
                     text: bytes, routeType: int, path: bytes, hashSize: int): Packet
    requires |secret| >= BLOCK && destPubKey != [] && srcPubKey != [] && IsU32(timestamp)
  {
    var payload := Datagram(c, secret, PathHash(destPubKey), PathHash(srcPubKey),
                            ComposePlaintext(timestamp, attempt, text, TXT_TYPE_PLAIN));
    Packet(routeType, TYPE_TXT_MSG, 0, None, path, payload, hashSize)
  }

  // ---- PATH messages ----

  /** The checks of build_path_plaintext pass exactly for routes the packet encoder takes too. */
  function PathPlaintext(path: bytes, hashSize: int, extraType: int, extra: bytes): (r: Result<bytes, PacketError>)
    ensures r.Success? <==> RouteFits(path, hashSize)
    ensures r.Success? ==> r.value != []
  {
    if hashSize == 0 then Failure(ZeroHashSize)
    else if |path| % hashSize != 0 then Failure(Misaligned)
    else
      match EncodePathLen(|path| / hashSize, hashSize)
      case Failure(e) => Failure(e)
      case Success(b) => Success([b] + path + [extraType % 256] + extra)
  }

  function ParsePath(destHash: byte, srcHash: byte, plain: bytes): Option<PathMsg> {
    if |plain| < 2 then None
    else
      var (hops, hashSize) := DecodePathLen(plain[0]);
      var n := hops * hashSize;
      if |plain| < 1 + n + 1 then None
      else
        var extraType := plain[1 + n] % 16;
        var rest := plain[2 + n..];
        Some(PathMsg(destHash, srcHash, plain[1..1 + n], hashSize, extraType, ExtraRead(extraType, rest)))
  }

  /** The extra of a PATH message: the first four bytes of an ACK, anything else without its trailing zeros. */
  function ExtraRead(extraType: int, rest: bytes): bytes {
    if extraType == TYPE_ACK && |rest| >= ACK_HASH_SIZE then rest[..ACK_HASH_SIZE] else RStrip(rest)
  }

  function TryDecryptPath(c: Suite, payload: bytes, secret: bytes): (m: Option<PathMsg>)
    requires |secret| >= BLOCK
  {
    match OpenDatagram(c, secret, payload)
    case None => None
    case Some(plain) => ParsePath(payload[0], payload[1], plain)
  }

  /** A route read out of a PATH message always fits the packet encoder. */
  lemma ParsedRouteFits(c: Suite, payload: bytes, secret: bytes)
    requires |secret| >= BLOCK
    ensures var m := TryDecryptPath(c, payload, secret);
            m.Some? ==> RouteFits(m.value.path, m.value.hashSize)
  {
    var plain := OpenDatagram(c, secret, payload);
    if plain.Some? {
      ParsedFits(payload[0], payload[1], plain.value);
    }
  }

  lemma ParsedFits(destHash: byte, srcHash: byte, plain: bytes)
    ensures var m := ParsePath(destHash, srcHash, plain); m.Some? ==> RouteFits(m.value.path, m.value.hashSize)
  {
    var m := ParsePath(destHash, srcHash, plain);
    if m.Some? {
      var (hops, hashSize) := DecodePathLen(plain[0]);
      assert |m.value.path| == hops * hashSize;
      HopsFit(m.value.path, hops, hashSize);
    }
  }

  lemma HopsFit(path: bytes, hops: nat, hashSize: nat)
    requires hops < 64 && 1 <= hashSize <= 4 && |path| == hops * hashSize
    ensures RouteFits(path, hashSize)
  {
    WholeHops(hops, hashSize);
  }

  /** What survives of a PATH extra once the block padding has been stripped again. */
  function ExtraSeen(path: bytes, extraType: int, extra: bytes): bytes {
    var padded := extra + Zeros(PadLength(2 + |path| + |extra|));
    if extraType % 16 == TYPE_ACK && |padded| >= ACK_HASH_SIZE then padded[..ACK_HASH_SIZE] else RStrip(extra)
  }

  function PathDatagram(c: Suite, secret: bytes, destHash: int, srcHash: int,
                        path: bytes, hashSize: int, extraType: int, extra: bytes): bytes
    requires |secret| >= BLOCK && RouteFits(path, hashSize)
  {
    Datagram(c, secret, destHash, srcHash, PathPlaintext(path, hashSize, extraType, extra).value)
  }

  lemma PathRoundTrip(c: Suite, secret: bytes, destHash: int, srcHash: int,
                      path: bytes, hashSize: int, extraType: int, extra: bytes)
    requires |secret| >= BLOCK && RouteFits(path, hashSize)
    ensures TryDecryptPath(c, PathDatagram(c, secret, destHash, srcHash, path, hashSize, extraType, extra), secret)
         == Some(PathMsg(destHash % 256, srcHash % 256, path, hashSize, extraType % 16,
                         ExtraSeen(path, extraType, extra)))
  {
    var inner := PathPlaintext(path, hashSize, extraType, extra).value;
    DatagramOpens(c, secret, destHash, srcHash, inner);
    PathPlainSize(path, hashSize, extraType, extra);
    var zeros := Zeros(PadLength(|inner|));
    ParsePathPlain(destHash % 256, srcHash % 256, path, hashSize, extraType, extra, zeros);
    RStripPadding(extra, |zeros|);
    assert Zeros(|zeros|) == zeros;
  }

  lemma PathPlainSize(path: bytes, hashSize: int, extraType: int, extra: bytes)
    requires RouteFits(path, hashSize)
    ensures |PathPlaintext(path, hashSize, extraType, extra).value| == 2 + |path| + |extra|
  {
    var b := PathLenByte(path, hashSize, extraType, extra);
  }

  lemma ParsePathPlain(destHash: byte, srcHash: byte, path: bytes, hashSize: int, extraType: int, extra: bytes,
                       zeros: bytes)
    requires RouteFits(path, hashSize)
    ensures var plain := PathPlaintext(path, hashSize, extraType, extra).value + zeros;
            ParsePath(destHash, srcHash, plain) ==
              Some(PathMsg(destHash, srcHash, path, hashSize, extraType % 16, ExtraRead(extraType % 16, extra + zeros)))
  {
    var b := PathLenByte(path, hashSize, extraType, extra);
    var head, rest := [b] + path + [extraType % 256], extra + zeros;
    assert head + extra + zeros == head + rest;
    ParseLayout(destHash, srcHash, b, path, hashSize, extraType % 256, rest);
    LowBits(extraType);
  }

  lemma LowBits(n: int)
    ensures n % 256 % 16 == n % 16
  {
  }

  lemma PathLenByte(path: bytes, hashSize: int, extraType: int, extra: bytes) returns (b: byte)
    requires RouteFits(path, hashSize)
    ensures PathPlaintext(path, hashSize, extraType, extra) == Success([b] + path + [extraType % 256] + extra)
    ensures SaysLength(b, path, hashSize)
  {
    b := EncodePathLen(|path| / hashSize, hashSize).value;
    PathLenBijection(0, |path| / hashSize, hashSize);
    HopsOf(|path|, hashSize);
  }

  /** This path_len byte stands for this path. */
  predicate SaysLength(b: byte, path: bytes, hashSize: int) {
    var (hops, size) := DecodePathLen(b);
    size == hashSize && hops * size == |path|
  }

  lemma DatagramBytes(c: Suite, secret: bytes, dest: byte, src: byte, inner: bytes)
    requires |secret| >= BLOCK
    ensures Datagram(c, secret, dest, src, inner) == [dest, src] + Seal(c, secret, inner)
  {
    var d: int, s: int := dest, src;
    assert d % 256 == d && s % 256 == s;
  }

  lemma PathPlainBytes(path: bytes, hashSize: int, extraType: byte, extra: bytes)
    requires RouteFits(path, hashSize)
    ensures PathPlaintext(path, hashSize, extraType, extra).value ==
      [|path| / hashSize + 64 * (hashSize - 1)] + path + [extraType] + extra
  {
    var e: int := extraType;
    assert e % 256 == e;
  }

  /**
    A PATH is both addresses, and hop count and hop size in one byte, the path, the extra's type and the extra, sealed.
   */
  lemma PathBytes(c: Suite, secret: bytes, dest: byte, src: byte, path: bytes, hashSize: int, extraType: byte,
                  extra: bytes)
    requires |secret| >= BLOCK && RouteFits(path, hashSize)
    ensures PathDatagram(c, secret, dest, src, path, hashSize, extraType, extra) ==
      [dest, src] + Seal(c, secret, [|path| / hashSize + 64 * (hashSize - 1)] + path + [extraType] + extra)
  {
    PathPlainBytes(path, hashSize, extraType, extra);
    DatagramBytes(c, secret, dest, src, PathPlaintext(path, hashSize, extraType, extra).value);
  }

  lemma ParseLayout(destHash: byte, srcHash: byte, b: byte, path: bytes, hashSize: int, kind: byte, rest: bytes)
    requires SaysLength(b, path, hashSize)
    ensures ParsePath(destHash, srcHash, [b] + path + [kind] + rest) ==
      Some(PathMsg(destHash, srcHash, path, hashSize, kind % 16, ExtraRead(kind % 16, rest)))
  {
    var plain := [b] + path + [kind] + rest;
    assert |plain| == 2 + |path| + |rest|;
    assert plain[0] == b && plain[1..1 + |path|] == path;
    assert plain[1 + |path|] == kind && plain[2 + |path|..] == rest;
  }

  /** A bundled 4-byte ACK is exact, trailing zeros included; any other extra is exact iff it does not end in zero. */
  lemma ExtraExactly(path: bytes, extraType: int, extra: bytes)
    ensures extraType % 16 == TYPE_ACK && |extra| == ACK_HASH_SIZE ==> ExtraSeen(path, extraType, extra) == extra
    ensures extraType % 16 != TYPE_ACK ==>
      (ExtraSeen(path, extraType, extra) == extra <==> (extra == [] || extra[|extra| - 1] != 0))
  {
    RStripIdentity(extra);
    if |extra| == ACK_HASH_SIZE {
      assert (extra + Zeros(PadLength(2 + |path| + |extra|)))[..ACK_HASH_SIZE] == extra;
    }
  }

  function PathPacket(c: Suite, secret: bytes, destHash: int, srcPubKey: bytes, path: bytes, hashSize: int,
                      extraType: int, extra: bytes, routeType: int, routePath: bytes, routeHashSize: int): Packet
    requires |secret| >= BLOCK && srcPubKey != [] && RouteFits(path, hashSize)
  {
    Packet(routeType, TYPE_PATH, 0, None, routePath,
      PathDatagram(c, secret, destHash, PathHash(srcPubKey), path, hashSize, extraType, extra), routeHashSize)
  }

  // ---- ACK packets ----

  function AckPacket(ackHash: bytes): Packet
    requires |ackHash| == ACK_HASH_SIZE
  {
    Packet(FLOOD, TYPE_ACK, 0, None, [], ackHash, 1)
  }

  function ParseAck(payload: bytes): Option<bytes> {
    if |payload| < ACK_HASH_SIZE then None else Some(payload[..ACK_HASH_SIZE])
  }

  /** The acknowledgement both servers return: PATH with the ACK bundled for floods, a plain ACK otherwise. */
  function AckReply(c: Suite, secret: bytes, destHash: int, ownPubKey: bytes, ackHash: bytes, inbound: Packet): Packet
    requires |secret| >= BLOCK && ownPubKey != [] && |ackHash| == ACK_HASH_SIZE
    requires RouteFits(inbound.path, inbound.hashSize)
  {
    if IsFlood(inbound) then
      PathPacket(c, secret, destHash, ownPubKey, inbound.path, inbound.hashSize, TYPE_ACK, ackHash, FLOOD, [], 1)
    else AckPacket(ackHash)
  }

  /** The hash a sender reads out of an acknowledgement packet, by either carrier. */
  function AckCarried(c: Suite, p: Packet, secret: bytes): Option<bytes>
    requires |secret| >= BLOCK
  {
    if p.payloadType == TYPE_ACK then ParseAck(p.payload)
    else
      match TryDecryptPath(c, p.payload, secret)
      case Some(m) =>
        if m.extraType == TYPE_ACK && |m.extra| >= ACK_HASH_SIZE then Some(m.extra[..ACK_HASH_SIZE]) else None
      case None => None
  }

  /**
    A flood is acknowledged with a PATH, which is addressed to its destination and says who it is from; all else with an
    ACK.
   */
  lemma AckReplyKind(c: Suite, secret: bytes, destHash: byte, ownPubKey: bytes, ackHash: bytes, inbound: Packet)
    requires |secret| >= BLOCK && ownPubKey != [] && |ackHash| == ACK_HASH_SIZE
    requires RouteFits(inbound.path, inbound.hashSize)
    ensures var reply := AckReply(c, secret, destHash, ownPubKey, ackHash, inbound);
      if IsFlood(inbound) then
        reply.payloadType == TYPE_PATH && |reply.payload| > 1 && reply.payload[0] == destHash
          && reply.payload[1] == PathHash(ownPubKey)
      else reply.payloadType == TYPE_ACK
  {
  }

  /**
    A flood is answered with a flooded PATH, in which the sender reads the route its packet took, with the size of its
    hops, and the hash; anything else with a flooded ACK of the hash.
   */
  lemma AckReplyReads(c: Suite, secret: bytes, destHash: byte, ownPubKey: bytes, ackHash: bytes, inbound: Packet)
    requires |secret| >= BLOCK && ownPubKey != [] && |ackHash| == ACK_HASH_SIZE
    requires RouteFits(inbound.path, inbound.hashSize)
    ensures var reply := AckReply(c, secret, destHash, ownPubKey, ackHash, inbound);
      && reply.routeType == FLOOD && reply.path == []
      && if inbound.routeType == FLOOD || inbound.routeType == TRANSPORT_FLOOD then
           && reply.payloadType == TYPE_PATH
           && TryDecryptPath(c, reply.payload, secret) ==
                Some(PathMsg(destHash, ownPubKey[0], inbound.path, inbound.hashSize, TYPE_ACK, ackHash))
         else reply.payloadType == TYPE_ACK && reply.payload == ackHash
  {
    if IsFlood(inbound) {
      var own: int := PathHash(ownPubKey);
      assert destHash % 256 == destHash && own % 256 == own;
      PathRoundTrip(c, secret, destHash, own, inbound.path, inbound.hashSize, TYPE_ACK, ackHash);
      ExtraExactly(inbound.path, TYPE_ACK, ackHash);
    }
  }

  /** The encoder never refuses an acknowledgement, and it decodes to itself. */
  lemma AckReplyOk(c: Suite, secret: bytes, destHash: int, ownPubKey: bytes, ackHash: bytes, inbound: Packet)
    requires |secret| >= BLOCK && ownPubKey != [] && |ackHash| == ACK_HASH_SIZE
    requires RouteFits(inbound.path, inbound.hashSize)
    ensures var reply := AckReply(c, secret, destHash, ownPubKey, ackHash, inbound);
            WellFormed(reply) && Decode(Wire(reply)) == Success(reply)
  {
    DecodeOfEncode(AckReply(c, secret, destHash, ownPubKey, ackHash, inbound));
  }

  /** Either carrier survives encoding and decoding, and brings the hash back bit for bit. */
  lemma AckComesBack(c: Suite, secret: bytes, destHash: byte, ownPubKey: bytes, ackHash: bytes, inbound: Packet)
    requires |secret| >= BLOCK && ownPubKey != [] && |ackHash| == ACK_HASH_SIZE
    requires RouteFits(inbound.path, inbound.hashSize)
    ensures var reply := AckReply(c, secret, destHash, ownPubKey, ackHash, inbound);
            WellFormed(reply) && Decode(Wire(reply)) == Success(reply)
            && AckCarried(c, reply, secret) == Some(ackHash)
  {
    AckReplyOk(c, secret, destHash, ownPubKey, ackHash, inbound);
    AckReplyReads(c, secret, destHash, ownPubKey, ackHash, inbound);
    assert ackHash[..ACK_HASH_SIZE] == ackHash;
  }

  // ---- reversing a path ----

  /** The hash-sized entries of an aligned path. */
  function Hops(path: bytes, hashSize: nat): seq<bytes>
    requires 1 <= hashSize <= 4 && |path| % hashSize == 0
    decreases |path|
  {
    if path == [] then []
    else
      OneHopLess(|path|, hashSize);
      [path[..hashSize]] + Hops(path[hashSize..], hashSize)
  }

  lemma OneHopLess(n: nat, hashSize: nat)
    requires 1 <= hashSize <= 4 && n % hashSize == 0 && n > 0
    ensures n >= hashSize && (n - hashSize) % hashSize == 0 && (n - hashSize) / hashSize == n / hashSize - 1
  {
    if hashSize == 1 {
    } else if hashSize == 2 {
    } else if hashSize == 3 {
    } else {
    }
  }

  function Flatten(entries: seq<bytes>): bytes {
    if entries == [] then [] else entries[0] + Flatten(entries[1..])
  }

  function Reversed<T>(s: seq<T>): (r: seq<T>)
    ensures |r| == |s| && forall i :: 0 <= i < |s| ==> r[i] == s[|s| - 1 - i]
  {
    seq(|s|, i requires 0 <= i < |s| => s[|s| - 1 - i])
  }

  function ReversePath(path: bytes, hashSize: int): Result<bytes, PacketError> {
    if path == [] then Success([])
    else if !(1 <= hashSize <= 4) then Failure(BadHashSize)
    else if |path| % hashSize != 0 then Failure(Misaligned)
    else Success(Flatten(Reversed(Hops(path, hashSize))))
  }

  lemma {:induction false} HopsShape(path: bytes, hashSize: nat)
    requires 1 <= hashSize <= 4 && |path| % hashSize == 0
    ensures var h := Hops(path, hashSize);
            |h| == |path| / hashSize && Flatten(h) == path && forall i :: 0 <= i < |h| ==> |h[i]| == hashSize
    decreases |path|
  {
    if path != [] {
      OneHopLess(|path|, hashSize);
      HopsShape(path[hashSize..], hashSize);
    }
  }

  lemma {:induction false} HopsOfFlatten(entries: seq<bytes>, hashSize: nat)
    requires 1 <= hashSize <= 4 && forall i :: 0 <= i < |entries| ==> |entries[i]| == hashSize
    ensures var flat := Flatten(entries);
            |flat| % hashSize == 0 && |flat| / hashSize == |entries| && Hops(flat, hashSize) == entries
    decreases |entries|
  {
    if entries != [] {
      HopsOfFlatten(entries[1..], hashSize);
      var flat, rest := Flatten(entries), Flatten(entries[1..]);
      assert flat[..hashSize] == entries[0] && flat[hashSize..] == rest;
      OneHopMore(|rest|, hashSize);
      OneHopLess(|flat|, hashSize);
    }
  }

  lemma OneHopMore(n: nat, hashSize: nat)
    requires 1 <= hashSize <= 4 && n % hashSize == 0
    ensures (n + hashSize) % hashSize == 0 && (n + hashSize) / hashSize == n / hashSize + 1
  {
    if hashSize == 1 {
    } else if hashSize == 2 {
    } else if hashSize == 3 {
    } else {
    }
  }

  /** Hop k of a path is its k-th run of hashSize bytes. */
  lemma {:induction false} HopAt(path: bytes, hashSize: nat, k: nat)
    requires 1 <= hashSize <= 4 && |path| % hashSize == 0 && k < |path| / hashSize
    ensures |Hops(path, hashSize)| == |path| / hashSize
    ensures 0 <= k * hashSize <= (k + 1) * hashSize <= |path|
    ensures Hops(path, hashSize)[k] == path[k * hashSize..(k + 1) * hashSize]
    decreases |path|
  {
    OneHopLess(|path|, hashSize);
    var rest := path[hashSize..];
    if k > 0 {
      HopAt(rest, hashSize, k - 1);
      assert (k - 1) * hashSize + hashSize == k * hashSize && k * hashSize + hashSize == (k + 1) * hashSize;
      assert rest[(k - 1) * hashSize..k * hashSize] == path[k * hashSize..(k + 1) * hashSize];
    } else {
      HopCounts(rest, hashSize);
    }
  }

  lemma {:induction false} HopCounts(path: bytes, hashSize: nat)
    requires 1 <= hashSize <= 4 && |path| % hashSize == 0
    ensures |Hops(path, hashSize)| == |path| / hashSize
    decreases |path|
  {
    if path != [] {
      OneHopLess(|path|, hashSize);
      HopCounts(path[hashSize..], hashSize);
    }
  }

  /** Reversing keeps every hop whole, in the opposite order, and reversing again restores the path. */
  lemma ReversePathInvolution(path: bytes, hashSize: int)
    requires RouteFits(path, hashSize)
    ensures var r := ReversePath(path, hashSize);
            && r.Success?
            && |r.value| == |path|
            && RouteFits(r.value, hashSize)
            && Hops(r.value, hashSize) == Reversed(Hops(path, hashSize))
            && ReversePath(r.value, hashSize) == Success(path)
  {
    var hops := Hops(path, hashSize);
    HopsShape(path, hashSize);
    HopsOfFlatten(Reversed(hops), hashSize);
    var back := Flatten(Reversed(hops));
    assert Reversed(Reversed(hops)) == hops;
    HopsOf(|path|, hashSize);
    HopsOf(|back|, hashSize);
    if path == [] {
      assert hops == [];
    }
  }

  // ---- delivery with retries ----

  datatype Attempt = Attempt(routeType: int, path: bytes, hashSize: int)
  datatype Shot = Shot(routeType: int, wire: bytes, ackHash: bytes)
  datatype DeliveryResult = DeliveryResult(routeType: int, attempt: nat, ackHash: bytes, acked: bool)
  datatype DeliveryError =
    | NegativeAttempts | BadDirectHashSize | NoAttempts | TimestampOverflow
    | BadPacket(error: PacketError)

  /** Direct attempts first, if a direct path is known, then floods. */
  function Attempts(directPath: bytes, directHashSize: int, direct: nat, flood: nat): seq<Attempt> {
    (if directPath == [] then [] else seq(direct, _ => Attempt(DIRECT, directPath, directHashSize)))
    + seq(flood, _ => Attempt(FLOOD, [], 1))
  }

  /**
    One run of a delivery loop over the prepared shots: which wires went out and how it ended, for the
    given outcome of each wait.
   */
  ghost predicate Delivered(shots: seq<Result<Shot, DeliveryError>>, acked: nat -> bool,
                            published: seq<bytes>, r: Result<DeliveryResult, DeliveryError>) {
    var k := |published|;
    && k <= |shots|
    && (forall i :: 0 <= i < k ==> shots[i].Success? && published[i] == shots[i].value.wire)
    && (forall i :: 0 <= i < k - 1 ==> !acked(i))
    && match r
       case Success(d) =>
         && k > 0
         && d == Outcome(shots[k - 1].value, k - 1, acked(k - 1))
         && (d.acked || k == |shots|)
       case Failure(e) =>
         && k < |shots| && shots[k] == Failure(e)
         && (k > 0 ==> !acked(k - 1))
  }

  /** For given shots and outcomes there is only one way a delivery can go. */
  lemma DeliveryDetermined(shots: seq<Result<Shot, DeliveryError>>, acked: nat -> bool,
                           p: seq<bytes>, r: Result<DeliveryResult, DeliveryError>,
                           p': seq<bytes>, r': Result<DeliveryResult, DeliveryError>)
    requires Delivered(shots, acked, p, r) && Delivered(shots, acked, p', r')
    ensures p == p' && r == r'
  {
    if |p| != |p'| {
      assert false;
    }
  }

  /** Every shot so far went out and none was acknowledged. */
  ghost predicate Unacked(shots: seq<Result<Shot, DeliveryError>>, acked: nat -> bool, published: seq<bytes>) {
    && |published| <= |shots|
    && (forall i :: 0 <= i < |published| ==> shots[i].Success? && published[i] == shots[i].value.wire)
    && (forall i :: 0 <= i < |published| ==> !acked(i))
  }

  function Outcome(shot: Shot, i: nat, acked: bool): DeliveryResult {
    DeliveryResult(shot.routeType, i, shot.ackHash, acked)
  }

  /** Firing the next shot keeps the run on course, and ends it when acknowledged or last. */
  lemma NextShot(shots: seq<Result<Shot, DeliveryError>>, acked: nat -> bool, published: seq<bytes>)
    requires Unacked(shots, acked, published) && |published| < |shots|
    ensures var i := |published|;
      if shots[i].Failure? then Delivered(shots, acked, published, Failure(shots[i].error))
      else
        var sent := published + [shots[i].value.wire];
        && (acked(i) || i + 1 == |shots| ==>
              Delivered(shots, acked, sent, Success(Outcome(shots[i].value, i, acked(i)))))
        && (!acked(i) ==> Unacked(shots, acked, sent))
  {
  }

  datatype Delivery = Delivery(wires: seq<bytes>, result: Result<DeliveryResult, DeliveryError>)

  /** How a delivery goes on once `published` is out and unacknowledged. */
  ghost function DeliveryFrom(shots: seq<Result<Shot, DeliveryError>>, acked: nat -> bool,
                              published: seq<bytes>): (d: Delivery)
    requires Unacked(shots, acked, published) && |published| < |shots|
    ensures Delivered(shots, acked, d.wires, d.result)
    decreases |shots| - |published|
  {
    NextShot(shots, acked, published);
    var i := |published|;
    if shots[i].Failure? then Delivery(published, Failure(shots[i].error))
    else
      var sent := published + [shots[i].value.wire];
      if acked(i) || i + 1 == |shots| then Delivery(sent, Success(Outcome(shots[i].value, i, acked(i))))
      else DeliveryFrom(shots, acked, sent)
  }

  /** Hence there is a way, and this is it. */
  ghost function DeliveryOf(shots: seq<Result<Shot, DeliveryError>>, acked: nat -> bool): (d: Delivery)
    requires shots != []
    ensures Delivered(shots, acked, d.wires, d.result)
  {
    DeliveryFrom(shots, acked, [])
  }

  /** When every shot can be fired, attempts 0..r go out, r the first acknowledged one or else the last. */
  lemma RetrySchedule(shots: seq<Result<Shot, DeliveryError>>, acked: nat -> bool,
                      published: seq<bytes>, r: Result<DeliveryResult, DeliveryError>)
    requires Delivered(shots, acked, published, r)
    requires forall i :: 0 <= i < |shots| ==> shots[i].Success?
    ensures r.Success?
    ensures var last := r.value.attempt;
      && last < |shots| && |published| == last + 1
      && (forall i :: 0 <= i < last ==> !acked(i))
      && (r.value.acked <==> acked(last))
      && (!acked(last) ==> last + 1 == |shots|)
      && (forall i :: 0 <= i <= last ==> published[i] == shots[i].value.wire)
      && r.value.ackHash == shots[last].value.ackHash && r.value.routeType == shots[last].value.routeType
  {
  }

  datatype TxtJob = TxtJob(secret: bytes, destPubKey: bytes, srcPubKey: bytes, text: bytes, timestamp: int,
                           directPath: bytes, directHashSize: int, direct: int, flood: int)

  predicate ValidJob(j: TxtJob) {
    |j.secret| >= BLOCK && j.destPubKey != [] && j.srcPubKey != []
  }

  function TxtAttempts(j: TxtJob): seq<Attempt>
    requires j.direct >= 0 && j.flood >= 0
  {
    Attempts(j.directPath, j.directHashSize, j.direct, j.flood)
  }

  /** Attempt i of a text run: the timestamp advances every four attempts, the wire counter is i mod 4. */
  /** The packet of one attempt, with this timestamp and these attempt bits. */
  function JobPacket(c: Suite, j: TxtJob, a: Attempt, timestamp: int, attempt: int): Packet
    requires ValidJob(j) && IsU32(timestamp)
  {
    TxtPacket(c, j.secret, j.destPubKey, j.srcPubKey, timestamp, attempt, j.text, a.routeType, a.path, a.hashSize)
  }

  function TxtShot(c: Suite, j: TxtJob, i: nat, a: Attempt): Result<Shot, DeliveryError>
    requires ValidJob(j)
  {
    var timestamp := j.timestamp + i / 4;
    if !IsU32(timestamp) then Failure(TimestampOverflow)
    else
      match Encode(JobPacket(c, j, a, timestamp, i % 4))
      case Failure(e) => Failure(BadPacket(e))
      case Success(wire) =>
        Success(Shot(a.routeType, wire, AckHashFor(c, timestamp, i % 4, j.text, j.srcPubKey, TXT_TYPE_PLAIN)))
  }

  function TxtShots(c: Suite, j: TxtJob): seq<Result<Shot, DeliveryError>>
    requires ValidJob(j) && j.direct >= 0 && j.flood >= 0
  {
    var a := TxtAttempts(j);
    seq(|a|, i requires 0 <= i < |a| => TxtShot(c, j, i, a[i]))
  }

  method TakeTxtShot(c: Suite, j: TxtJob, i: nat, a: Attempt) returns (shot: Result<Shot, DeliveryError>)
    requires ValidJob(j)
    ensures shot == TxtShot(c, j, i, a)
  {
    var timestamp, attempt := j.timestamp + i / 4, i % 4;
    if !IsU32(timestamp) {
      return Failure(TimestampOverflow);
    }
    var packet := JobPacket(c, j, a, timestamp, attempt);
    var ackHash := AckHashFor(c, timestamp, attempt, j.text, j.srcPubKey, TXT_TYPE_PLAIN);
    var wire := EncodePacket(packet);
    if wire.Failure? {
      return Failure(BadPacket(wire.error));
    }
    return Success(Shot(a.routeType, wire.value, ackHash));
  }

  method DeliverTxtMsgWithAck(c: Suite, j: TxtJob, acked: nat -> bool)
    returns (published: seq<bytes>, r: Result<DeliveryResult, DeliveryError>)
    requires ValidJob(j)
    ensures j.direct < 0 || j.flood < 0 ==> published == [] && r == Failure(NegativeAttempts)
    ensures j.direct >= 0 && j.flood >= 0 ==>
      if j.directPath != [] && !(1 <= j.directHashSize <= 4) then published == [] && r == Failure(BadDirectHashSize)
      else if TxtAttempts(j) == [] then published == [] && r == Failure(NoAttempts)
      else Delivered(TxtShots(c, j), acked, published, r)
  {
    published := [];
    if j.direct < 0 || j.flood < 0 {
      return published, Failure(NegativeAttempts);
    }
    if j.directPath != [] && !(1 <= j.directHashSize <= 4) {
      return published, Failure(BadDirectHashSize);
    }
    var attempts := [];
    if j.directPath != [] {
      attempts := attempts + seq(j.direct, _ => Attempt(DIRECT, j.directPath, j.directHashSize));
    }
    attempts := attempts + seq(j.flood, _ => Attempt(FLOOD, [], 1));
    assert attempts == TxtAttempts(j);
    if attempts == [] {
      return published, Failure(NoAttempts);
    }
    r := Failure(NoAttempts);
    for i := 0 to |attempts|
      invariant |published| == i && Unacked(TxtShots(c, j), acked, published)
      invariant i == |attempts| ==> Delivered(TxtShots(c, j), acked, published, r)
    {
      NextShot(TxtShots(c, j), acked, published);
      var shot := TakeTxtShot(c, j, i, attempts[i]);
      if shot.Failure? {
        return published, Failure(shot.error);
      }
      published := published + [shot.value.wire];
      r := Success(Outcome(shot.value, i, acked(i)));
      if acked(i) {
        return;
      }
    }
  }

  /** Two ACK inputs over the same text and key agree iff timestamp and attempt bits do. */
  lemma AckInputEqual(t: int, m: int, t': int, m': int, text: bytes, key: bytes, txtType: int)
    requires IsU32(t) && IsU32(t') && IsTxtType(txtType)
    ensures AckInput(t, m, text, key, txtType) == AckInput(t', m', text, key, txtType) <==> t == t' && m % 4 == m' % 4
  {
    var x, y := AckInput(t, m, text, key, txtType), AckInput(t', m', text, key, txtType);
    assert x[..4] == Le4(t) && y[..4] == Le4(t');
    assert x[4] == FlagsByte(m, txtType) && y[4] == FlagsByte(m', txtType);
    Le4Injective(t, t');
  }

  lemma QuotientAndRemainder(i: nat, k: nat, base: int)
    ensures base + i / 4 == base + k / 4 && i % 4 % 4 == k % 4 % 4 <==> i == k
  {
  }

  /** What is hashed: timestamp, attempt and type bits, text, key of the sender. */
  lemma AckInputBytes(timestamp: int, attempt: int, text: bytes, key: bytes, txtType: int)
    requires IsU32(timestamp) && IsTxtType(txtType)
    ensures AckInput(timestamp, attempt, text, key, txtType)
      == Le4(timestamp) + [attempt % 4 + 4 * txtType] + text + key
  {
  }

  /** The hash of a message that was read is that of these bytes. */
  lemma AckHashBytes(c: Suite, m: TxtMsg, key: bytes)
    requires IsU32(m.timestamp) && IsTxtType(m.txtType)
    ensures AckHash(c, m, key) ==
      c.sha256(Le4(m.timestamp) + [m.attempt % 4 + 4 * m.txtType] + m.text + key)[..ACK_HASH_SIZE]
  {
    AckInputBytes(m.timestamp, m.attempt, m.text, key, m.txtType);
  }

  /** Attempt i of a text run awaits the hash of its own bytes. */
  lemma ShotAwaits(c: Suite, j: TxtJob, i: nat)
    requires ValidJob(j) && j.direct >= 0 && j.flood >= 0 && i < |TxtAttempts(j)| && TxtShots(c, j)[i].Success?
    ensures IsU32(j.timestamp + i / 4)
    ensures TxtShots(c, j)[i].value.ackHash ==
      c.sha256(Le4(j.timestamp + i / 4) + [i % 4] + j.text + j.srcPubKey)[..ACK_HASH_SIZE]
  {
    ShotIsPacket(c, j, i);
    HashedBytes(c, j.timestamp + i / 4, i % 4, j.text, j.srcPubKey);
  }

  lemma HashedBytes(c: Suite, timestamp: int, attempt: int, text: bytes, key: bytes)
    requires IsU32(timestamp) && 0 <= attempt < 4
    ensures AckHashFor(c, timestamp, attempt, text, key, TXT_TYPE_PLAIN)
         == c.sha256(Le4(timestamp) + [attempt] + text + key)[..ACK_HASH_SIZE]
  {
    AckInputBytes(timestamp, attempt, text, key, TXT_TYPE_PLAIN);
  }

  lemma SameStart(a: bytes, m: byte, b: bytes, m': byte, text: bytes, key: bytes)
    requires |a| == |b| == 4
    ensures a + [m] + text + key == b + [m'] + text + key <==> a == b && m == m'
  {
    var x, y := a + [m] + text + key, b + [m'] + text + key;
    assert x[..4] == a && y[..4] == b && x[4] == m && y[4] == m';
  }

  lemma HashedApart(t: int, m: byte, t': int, m': byte, text: bytes, key: bytes)
    requires IsU32(t) && IsU32(t')
    ensures Le4(t) + [m] + text + key == Le4(t') + [m'] + text + key <==> t == t' && m == m'
  {
    SameStart(Le4(t), m, Le4(t'), m', text, key);
    Le4Injective(t, t');
  }

  /** So any two attempts of a run await hashes of different bytes. */
  lemma AwaitedApart(j: TxtJob, i: nat, k: nat)
    requires IsU32(j.timestamp + i / 4) && IsU32(j.timestamp + k / 4)
    ensures var one := Le4(j.timestamp + i / 4) + [i % 4] + j.text + j.srcPubKey;
            var other := Le4(j.timestamp + k / 4) + [k % 4] + j.text + j.srcPubKey;
            one == other <==> i == k
  {
    QuotientAndRemainder(i, k, j.timestamp);
    HashedApart(j.timestamp + i / 4, i % 4, j.timestamp + k / 4, k % 4, j.text, j.srcPubKey);
  }

  /** A run over a usable route with room in the timestamp never fails. */
  lemma UsableRouteNeverFails(c: Suite, j: TxtJob, i: nat)
    requires ValidJob(j) && j.direct >= 0 && j.flood >= 0 && i < |TxtAttempts(j)|
    requires IsU32(j.timestamp) && IsU32(j.timestamp + i / 4)
    requires j.directPath != [] ==> RouteFits(j.directPath, j.directHashSize)
    ensures TxtShots(c, j)[i].Success?
  {
    var a := TxtAttempts(j)[i];
    assert RouteFits(a.path, a.hashSize);
  }

  /** Both ends of a link derive the same secret: the key-agreement symmetry, as a hypothesis on the keys. */
  ghost predicate Agree(c: Suite, seedA: bytes, pubA: bytes, seedB: bytes, pubB: bytes) {
    c.ecdh(seedA, pubB).Some? && c.ecdh(seedA, pubB) == c.ecdh(seedB, pubA)
  }

  /** One text packet, from the sender's encoder to what the receiver reads. */
  lemma TxtOpens(c: Suite, j: TxtJob, a: Attempt, timestamp: int, attempt: int)
    requires ValidJob(j) && IsU32(timestamp) && 0 <= attempt < 4
    ensures TryDecryptTxt(c, JobPacket(c, j, a, timestamp, attempt).payload, j.secret)
      == Some(TxtRead(j, timestamp, attempt))
  {
    var dest: int, src: int := PathHash(j.destPubKey), PathHash(j.srcPubKey);
    assert dest % 256 == dest && src % 256 == src && attempt % 4 == attempt;
    TxtRoundTrip(c, j.secret, dest, src, timestamp, attempt, j.text, TXT_TYPE_PLAIN);
  }

  /** What the receiver reads in such a packet: the text up to its first NUL. */
  function TxtRead(j: TxtJob, timestamp: int, attempt: int): TxtMsg
    requires ValidJob(j)
  {
    TxtMsg(PathHash(j.destPubKey), PathHash(j.srcPubKey), timestamp, attempt, CutNul(j.text), TXT_TYPE_PLAIN)
  }

  /** Cutting the text at a NUL leaves the bytes to be hashed as they were exactly when there is none to cut at. */
  lemma CutChangesInput(timestamp: int, attempt: int, text: bytes, key: bytes, txtType: int)
    requires IsU32(timestamp) && IsTxtType(txtType)
    ensures AckInput(timestamp, attempt, CutNul(text), key, txtType) == AckInput(timestamp, attempt, text, key, txtType)
            <==> NulFree(text)
  {
    CutNulIdentity(text);
    CutNulShorter(text);
    var cut := AckInput(timestamp, attempt, CutNul(text), key, txtType);
    var whole := AckInput(timestamp, attempt, text, key, txtType);
    assert |cut| - |CutNul(text)| == |whole| - |text|;
  }

  lemma ShotIsPacket(c: Suite, j: TxtJob, i: nat)
    requires ValidJob(j) && j.direct >= 0 && j.flood >= 0 && i < |TxtAttempts(j)|
    requires TxtShots(c, j)[i].Success?
    ensures IsU32(j.timestamp + i / 4)
    ensures var a := TxtAttempts(j)[i];
            var p := JobPacket(c, j, a, j.timestamp + i / 4, i % 4);
            var shot := TxtShots(c, j)[i].value;
            Encodable(p) && shot.wire == Wire(p) && InRange(p) && p.path == a.path && p.routeType == a.routeType
            && shot.ackHash == AckHashFor(c, j.timestamp + i / 4, i % 4, j.text, j.srcPubKey, TXT_TYPE_PLAIN)
  {
    var a := TxtAttempts(j)[i];
    assert a.routeType == DIRECT || a.routeType == FLOOD;
    assert TxtShots(c, j)[i] == TxtShot(c, j, i, a);
  }

  lemma ShotDecodes(c: Suite, j: TxtJob, i: nat)
    requires ValidJob(j) && j.direct >= 0 && j.flood >= 0 && i < |TxtAttempts(j)|
    requires TxtShots(c, j)[i].Success? && |j.directPath| <= MAX_PATH_SIZE
    ensures var got := Decode(TxtShots(c, j)[i].value.wire);
      got.Success? && got.value.routeType == TxtAttempts(j)[i].routeType && got.value.path == TxtAttempts(j)[i].path
      && got.value.hashSize == TxtAttempts(j)[i].hashSize
  {
    ShotIsPacket(c, j, i);
    DecodeOfEncode(JobPacket(c, j, TxtAttempts(j)[i], j.timestamp + i / 4, i % 4));
  }

  /**
    A delivery of which no attempt is acknowledged sends all of them: if a path is known, as many directly along it as
    were asked for, and then as many floods.
   */
  lemma UnackedSendsAll(c: Suite, j: TxtJob, acked: nat -> bool, published: seq<bytes>,
                        r: Result<DeliveryResult, DeliveryError>, i: nat)
    requires ValidJob(j) && j.direct >= 0 && j.flood >= 0 && |j.directPath| <= MAX_PATH_SIZE
    requires Delivered(TxtShots(c, j), acked, published, r) && r.Success? && forall k :: !acked(k)
    ensures var direct := if j.directPath == [] then 0 else j.direct;
      && |published| == direct + j.flood
      && (i < |published| ==>
            && Decode(published[i]).Success?
            && var p := Decode(published[i]).value;
            if i < direct then p.routeType == DIRECT && p.path == j.directPath && p.hashSize == j.directHashSize
            else p.routeType == FLOOD && p.path == [])
  {
    if i < |published| {
      ShotDecodes(c, j, i);
    }
  }

  /**
    On the air no direct packet of a delivery ever follows a flooded one, and each takes the route that was asked for.
   */
  lemma DirectBeforeFlood(c: Suite, j: TxtJob, acked: nat -> bool, published: seq<bytes>,
                          r: Result<DeliveryResult, DeliveryError>, i: nat, k: nat)
    requires ValidJob(j) && j.direct >= 0 && j.flood >= 0 && |j.directPath| <= MAX_PATH_SIZE
    requires Delivered(TxtShots(c, j), acked, published, r) && i < k < |published|
    ensures Decode(published[i]).Success? && Decode(published[k]).Success?
    ensures var a, b := Decode(published[i]).value, Decode(published[k]).value;
      && ((a.routeType == DIRECT && a.path == j.directPath) || (a.routeType == FLOOD && a.path == []))
      && (b.routeType == DIRECT ==> a.routeType == DIRECT)
  {
    ShotDecodes(c, j, i);
    ShotDecodes(c, j, k);
  }

  // ---- both ends of a link, with or without repeaters between them ----

  /**
    `got` is `sent` as it may arrive: repeaters have changed its path, and perhaps its transport codes, but not the
    message, and a flood is still a flood.
   */
  predicate Relayed(sent: Packet, got: Packet) {
    && WellFormed(got) && got.payloadType == sent.payloadType && got.payload == sent.payload
    && (IsFlood(got) <==> IsFlood(sent))
  }

  /** This is how the packet published as these bytes may arrive. */
  predicate Arrives(wire: bytes, got: Packet) {
    match Decode(wire)
    case Success(sent) => Relayed(sent, got)
    case Failure(_) => false
  }

  lemma ArrivesAsRelayed(p: Packet, got: Packet)
    requires WellFormed(p)
    ensures Arrives(Wire(p), got) <==> Relayed(p, got)
  {
    DecodeOfEncode(p);
  }

  /** Attempt i of a delivery from seedA's key to seedB's, which both ends can read; its route is one that decodes. */
  ghost predicate Linked(c: Suite, j: TxtJob, i: nat, seedA: bytes, seedB: bytes) {
    && ValidJob(j) && j.direct >= 0 && j.flood >= 0 && i < |TxtAttempts(j)|
    && Agree(c, seedA, j.srcPubKey, seedB, j.destPubKey) && c.ecdh(seedA, j.destPubKey) == Some(j.secret)
    && TxtShots(c, j)[i].Success? && |j.directPath| <= MAX_PATH_SIZE
  }

  /** What arrives of attempt i is a relayed copy of its packet, which floods exactly when the attempt was to. */
  lemma AttemptRelayed(c: Suite, j: TxtJob, i: nat, seedA: bytes, seedB: bytes, got: Packet)
    requires Linked(c, j, i, seedA, seedB) && Arrives(TxtShots(c, j)[i].value.wire, got)
    ensures IsU32(j.timestamp + i / 4) && RouteFits(got.path, got.hashSize)
    ensures Relayed(JobPacket(c, j, TxtAttempts(j)[i], j.timestamp + i / 4, i % 4), got)
  {
    ShotIsPacket(c, j, i);
    ArrivesAsRelayed(JobPacket(c, j, TxtAttempts(j)[i], j.timestamp + i / 4, i % 4), got);
  }

  lemma AttemptFloods(c: Suite, j: TxtJob, i: nat, seedA: bytes, seedB: bytes, got: Packet)
    requires Linked(c, j, i, seedA, seedB) && Arrives(TxtShots(c, j)[i].value.wire, got)
    ensures IsFlood(got) <==> TxtAttempts(j)[i].routeType == FLOOD
  {
    AttemptRelayed(c, j, i, seedA, seedB, got);
    var a := TxtAttempts(j)[i];
    assert a.routeType == DIRECT || a.routeType == FLOOD;
  }

  /** The receiver opens an attempt that has been relayed to what the sender put in, the text up to its first NUL. */
  lemma AttemptArrives(c: Suite, j: TxtJob, i: nat, seedA: bytes, seedB: bytes, got: Packet)
    requires Linked(c, j, i, seedA, seedB) && Arrives(TxtShots(c, j)[i].value.wire, got)
    ensures IsU32(j.timestamp + i / 4) && RouteFits(got.path, got.hashSize)
    ensures TryDecryptTxt(c, got.payload, c.ecdh(seedB, j.srcPubKey).value)
      == Some(TxtRead(j, j.timestamp + i / 4, i % 4))
  {
    AttemptRelayed(c, j, i, seedA, seedB, got);
    TxtOpens(c, j, TxtAttempts(j)[i], j.timestamp + i / 4, i % 4);
  }

  lemma AttemptReadAs(c: Suite, j: TxtJob, i: nat, seedA: bytes, seedB: bytes, got: Packet, srcPubKey: bytes, m: TxtMsg)
    requires Linked(c, j, i, seedA, seedB) && Arrives(TxtShots(c, j)[i].value.wire, got)
    requires srcPubKey == j.srcPubKey && m == TxtRead(j, j.timestamp + i / 4, i % 4)
    ensures TryDecryptTxt(c, got.payload, c.ecdh(seedB, srcPubKey).value) == Some(m)
  {
    AttemptArrives(c, j, i, seedA, seedB, got);
  }

  /** It hashes the bytes the sender did exactly when the text has no NUL. */
  lemma AttemptInput(j: TxtJob, timestamp: int, attempt: int)
    requires ValidJob(j) && IsU32(timestamp) && 0 <= attempt < 4
    ensures var m := TxtRead(j, timestamp, attempt);
      var sent := Le4(timestamp) + [attempt] + j.text + j.srcPubKey;
      AckInput(m.timestamp, m.attempt, m.text, j.srcPubKey, m.txtType) == sent <==> NulFree(j.text)
  {
    CutChangesInput(timestamp, attempt, j.text, j.srcPubKey, TXT_TYPE_PLAIN);
    AckInputBytes(timestamp, attempt, j.text, j.srcPubKey, TXT_TYPE_PLAIN);
  }

  /** And then it computes the hash that is awaited. */
  lemma AttemptHashed(c: Suite, j: TxtJob, i: nat, seedA: bytes, seedB: bytes)
    requires Linked(c, j, i, seedA, seedB) && NulFree(j.text)
    ensures var m := TxtRead(j, j.timestamp + i / 4, i % 4);
      IsU32(m.timestamp) && m.text == j.text && AckHash(c, m, j.srcPubKey) == TxtShots(c, j)[i].value.ackHash
  {
    CutNulIdentity(j.text);
    ShotIsPacket(c, j, i);
  }

  /** An acknowledgement of whatever arrived brings its hash back, however it is relayed. */
  lemma AckRelayedBack(c: Suite, secret: bytes, destHash: byte, ownPubKey: bytes, ackHash: bytes, inbound: Packet,
                       back: Packet)
    requires |secret| >= BLOCK && ownPubKey != [] && |ackHash| == ACK_HASH_SIZE
    requires RouteFits(inbound.path, inbound.hashSize)
    ensures var reply := AckReply(c, secret, destHash, ownPubKey, ackHash, inbound);
      && Decode(Wire(reply)) == Success(reply) && Relayed(reply, reply)
      && (Relayed(reply, back) ==> AckCarried(c, back, secret) == Some(ackHash))
  {
    AckComesBack(c, secret, destHash, ownPubKey, ackHash, inbound);
  }

  /**
    End to end: whatever a delivery publishes as attempt i decodes, and however it is relayed to the receiver, the
    receiver opens it and, for NUL-free text, computes the very hash the sender is waiting for. Its acknowledgement, by
    either carrier and however that is relayed back, gives the sender that hash.
   */
  lemma AckAgreement(c: Suite, j: TxtJob, i: nat, seedA: bytes, seedB: bytes, got: Packet, back: Packet)
    requires Linked(c, j, i, seedA, seedB) && NulFree(j.text)
    requires Arrives(TxtShots(c, j)[i].value.wire, got)
    ensures var shot := TxtShots(c, j)[i].value;
            var secretB := c.ecdh(seedB, j.srcPubKey).value;
            && RouteFits(got.path, got.hashSize)
            && var m := TryDecryptTxt(c, got.payload, secretB);
            && m.Some?
            && m.value.text == j.text
            && AckHash(c, m.value, j.srcPubKey) == shot.ackHash
            && var reply := AckReply(c, secretB, m.value.srcHash, j.destPubKey, shot.ackHash, got);
            && Decode(Wire(reply)) == Success(reply) && Relayed(reply, reply)
            && (Relayed(reply, back) ==> AckCarried(c, back, j.secret) == Some(shot.ackHash))
  {
    AttemptArrives(c, j, i, seedA, seedB, got);
    AttemptHashed(c, j, i, seedA, seedB);
    AckRelayedBack(c, j.secret, PathHash(j.srcPubKey), j.destPubKey, TxtShots(c, j)[i].value.ackHash, got, back);
  }

  /**
    What attempt i is, on the air: from and to whom, and timestamp, attempt bits and text, sealed and NUL-terminated.
   */
  lemma AttemptOnAir(c: Suite, j: TxtJob, i: nat)
    requires ValidJob(j) && j.direct >= 0 && j.flood >= 0 && i < |TxtAttempts(j)|
    requires TxtShots(c, j)[i].Success? && |j.directPath| <= MAX_PATH_SIZE
    ensures IsU32(j.timestamp + i / 4)
    ensures var a := TxtAttempts(j)[i];
      Decode(TxtShots(c, j)[i].value.wire) == Success(
        Packet(a.routeType, TYPE_TXT_MSG, 0, None, a.path,
               [j.destPubKey[0], j.srcPubKey[0]]
               + Seal(c, j.secret, Le4(j.timestamp + i / 4) + [i % 4] + j.text + [0]), a.hashSize))
  {
    ShotIsPacket(c, j, i);
    DecodeOfEncode(JobPacket(c, j, TxtAttempts(j)[i], j.timestamp + i / 4, i % 4));
    JobBytes(c, j, TxtAttempts(j)[i], j.timestamp + i / 4, i % 4);
  }

  lemma JobBytes(c: Suite, j: TxtJob, a: Attempt, timestamp: int, attempt: int)
    requires ValidJob(j) && IsU32(timestamp) && 0 <= attempt < 4
    ensures JobPacket(c, j, a, timestamp, attempt) ==
      Packet(a.routeType, TYPE_TXT_MSG, 0, None, a.path,
             [j.destPubKey[0], j.srcPubKey[0]] + Seal(c, j.secret, Le4(timestamp) + [attempt] + j.text + [0]),
             a.hashSize)
  {
    var dest: int, src: int := j.destPubKey[0], j.srcPubKey[0];
    assert dest % 256 == dest && src % 256 == src;
    assert ComposePlaintext(timestamp, attempt, j.text, TXT_TYPE_PLAIN) == Le4(timestamp) + [attempt] + j.text + [0];
  }

  /** A text message opens exactly when it is long enough, in whole blocks, and its HMAC is right. */
  lemma TxtOpensExactly(c: Suite, payload: bytes, secret: bytes)
    requires |secret| == 32
    ensures TryDecryptTxt(c, payload, secret).Some? <==>
      && |payload| >= 20 && (|payload| - 4) % BLOCK == 0
      && payload[2..4] == c.hmac(secret, payload[4..])[..MAC_SIZE]
  {
    if |payload| >= 4 {
      assert payload[2..][..2] == payload[2..4] && payload[2..][2..] == payload[4..];
    }
  }

  /** Every attempt decodes as published, so it may arrive as it is, without any repeater. */
  lemma AttemptDecodes(c: Suite, j: TxtJob, i: nat, seedA: bytes, seedB: bytes)
    requires Linked(c, j, i, seedA, seedB)
    ensures var wire := TxtShots(c, j)[i].value.wire; Decode(wire).Success? && Arrives(wire, Decode(wire).value)
  {
    ShotIsPacket(c, j, i);
    DecodeOfEncode(JobPacket(c, j, TxtAttempts(j)[i], j.timestamp + i / 4, i % 4));
  }
}
