/** Room-server payloads - login, login response, post push - and push delivery (room.py). */
module Room {
  import opened Bytes
  import opened Wrappers
  import opened Packets
  import opened Crypto
  import opened Messaging

  const PERM_ACL_READ_WRITE := 2
  const PERM_ACL_ADMIN := 3
  const AUTHOR_PREFIX_SIZE := 4
  const FIRMWARE_VER_LEVEL: byte := 1
  const ANON_HEADER_SIZE := 1 + PUB_KEY_SIZE

  // ---- login request ----

  datatype LoginReq = LoginReq(clientPubKey: bytes, timestamp: int, syncSince: int, password: bytes)

  function LoginInner(timestamp: int, syncSince: int, password: bytes): bytes
    requires IsU32(timestamp) && IsU32(syncSince)
  {
    Le4(timestamp) + Le4(syncSince) + password + [0]
  }

  function LoginPayload(c: Suite, secret: bytes, roomHash: int, req: LoginReq): bytes
    requires |secret| >= BLOCK && |req.clientPubKey| == PUB_KEY_SIZE && IsU32(req.timestamp) && IsU32(req.syncSince)
  {
    [roomHash % 256] + req.clientPubKey + Seal(c, secret, LoginInner(req.timestamp, req.syncSince, req.password))
  }

  /** The key agreement refuses keys that are not curve points; that counts as a message not for us. */
  function TryDecryptLogin(c: Suite, payload: bytes, roomSeed: bytes): (r: Option<LoginReq>)
    ensures r.Some? ==> |r.value.clientPubKey| == PUB_KEY_SIZE && c.ecdh(roomSeed, r.value.clientPubKey).Some?
    ensures r.Some? ==> IsU32(r.value.timestamp) && IsU32(r.value.syncSince)
  {
    if |payload| < ANON_HEADER_SIZE + MAC_SIZE + BLOCK then None
    else
      var client := payload[1..ANON_HEADER_SIZE];
      match c.ecdh(roomSeed, client)
      case None => None
      case Some(secret) =>
        match Open(c, secret, payload[ANON_HEADER_SIZE..])
        case None => None
        case Some(plain) => Some(LoginReq(client, FromLe4(plain[..4]), FromLe4(plain[4..8]), CutNul(plain[8..])))
  }

  lemma LoginRoundTrip(c: Suite, clientSeed: bytes, roomSeed: bytes, roomPubKey: bytes, roomHash: int, req: LoginReq)
    requires |req.clientPubKey| == PUB_KEY_SIZE && IsU32(req.timestamp) && IsU32(req.syncSince)
    requires Agree(c, clientSeed, req.clientPubKey, roomSeed, roomPubKey)
    ensures var secret := c.ecdh(clientSeed, roomPubKey).value;
            TryDecryptLogin(c, LoginPayload(c, secret, roomHash, req), roomSeed)
              == Some(req.(password := CutNul(req.password)))
    ensures CutNul(req.password) == req.password <==> NulFree(req.password)
  {
    CutNulIdentity(req.password);
    var secret := c.ecdh(clientSeed, roomPubKey).value;
    var inner := LoginInner(req.timestamp, req.syncSince, req.password);
    var payload := LoginPayload(c, secret, roomHash, req);
    SealOpens(c, secret, inner);
    SealedSize(c, secret, inner);
    assert payload[1..ANON_HEADER_SIZE] == req.clientPubKey;
    assert payload[ANON_HEADER_SIZE..] == Seal(c, secret, inner);
    LoginInnerFields(req.timestamp, req.syncSince, req.password, Zeros(PadLength(|inner|)));
  }

  lemma LoginInnerFields(timestamp: int, syncSince: int, password: bytes, zeros: bytes)
    requires IsU32(timestamp) && IsU32(syncSince)
    ensures var plain := LoginInner(timestamp, syncSince, password) + zeros;
            && FromLe4(plain[..4]) == timestamp && FromLe4(plain[4..8]) == syncSince
            && CutNul(plain[8..]) == CutNul(password)
  {
    var plain := LoginInner(timestamp, syncSince, password) + zeros;
    assert plain[..4] == Le4(timestamp) && plain[4..8] == Le4(syncSince);
    assert plain[8..] == password + [0] + zeros;
    CutNulTerminated(password, zeros);
  }

  // ---- login response ----

  datatype LoginResponse = LoginResponse(serverTs: int, status: byte, isAdmin: bool, permissions: byte)

  function LoginResponseInner(serverTs: int, isAdmin: bool, permissions: int, random: bytes): bytes
    requires IsU32(serverTs)
  {
    Le4(serverTs) + [0, 0, if isAdmin then 1 else 0, permissions % 256] + random + [FIRMWARE_VER_LEVEL]
  }

  function LoginResponsePacket(c: Suite, secret: bytes, destHash: int, srcHash: int, serverTs: int, isAdmin: bool,
                               permissions: int, random: bytes, routeType: int, path: bytes, hashSize: int): Packet
    requires |secret| >= BLOCK && IsU32(serverTs)
  {
    Packet(routeType, TYPE_RESPONSE, 0, None, path,
      Datagram(c, secret, destHash, srcHash, LoginResponseInner(serverTs, isAdmin, permissions, random)), hashSize)
  }

  function TryDecryptLoginResponse(c: Suite, payload: bytes, secret: bytes): Option<LoginResponse>
    requires |secret| >= BLOCK
  {
    match OpenDatagram(c, secret, payload)
    case None => None
    case Some(plain) => Some(LoginResponse(FromLe4(plain[..4]), plain[4], plain[6] != 0, plain[7]))
  }

  lemma LoginResponseRoundTrip(c: Suite, secret: bytes, destHash: int, srcHash: int, serverTs: int, isAdmin: bool,
                               permissions: int, random: bytes)
    requires |secret| >= BLOCK && IsU32(serverTs)
    ensures TryDecryptLoginResponse(c,
              Datagram(c, secret, destHash, srcHash,
                       LoginResponseInner(serverTs, isAdmin, permissions, random)), secret)
         == Some(LoginResponse(serverTs, 0, isAdmin, permissions % 256))
  {
    var inner := LoginResponseInner(serverTs, isAdmin, permissions, random);
    DatagramOpens(c, secret, destHash, srcHash, inner);
    var plain := Pad(inner);
    assert plain[..4] == Le4(serverTs);
    assert plain[4] == 0 && plain[6] == (if isAdmin then 1 else 0) && plain[7] == permissions % 256;
  }

  // ---- post pushes ----

  datatype RoomPush = RoomPush(postTs: int, attempt: int, authorPrefix: bytes, text: bytes)

  function AuthorPrefix(author: bytes): bytes {
    if |author| <= AUTHOR_PREFIX_SIZE then author else author[..AUTHOR_PREFIX_SIZE]
  }

  /** A push is signed-plain text whose body starts with the author's key prefix. */
  function PushThroughText(postTs: int, attempt: int, author: bytes, text: bytes): bytes
    requires IsU32(postTs)
  {
    ThroughText(postTs, attempt, AuthorPrefix(author) + text, TXT_TYPE_SIGNED_PLAIN)
  }

  function PushInner(postTs: int, attempt: int, author: bytes, text: bytes): bytes
    requires IsU32(postTs)
  {
    PushThroughText(postTs, attempt, author, text) + [0]
  }

  /** Unlike a direct message, the hash covers the key of the recipient, not of the sender. */
  function PushAckInput(postTs: int, attempt: int, author: bytes, text: bytes, destPubKey: bytes): bytes
    requires IsU32(postTs)
  {
    PushThroughText(postTs, attempt, author, text) + destPubKey
  }

  function PushAckHash(c: Suite, postTs: int, attempt: int, author: bytes, text: bytes, destPubKey: bytes): (h: bytes)
    requires IsU32(postTs)
    ensures |h| == ACK_HASH_SIZE
  {
    c.sha256(PushAckInput(postTs, attempt, author, text, destPubKey))[..ACK_HASH_SIZE]
  }

  function PushPacket(c: Suite, secret: bytes, destPubKey: bytes, roomPubKey: bytes, postTs: int, author: bytes,
                      text: bytes, attempt: int, routeType: int, path: bytes, hashSize: int): Packet
    requires |secret| >= BLOCK && destPubKey != [] && roomPubKey != [] && IsU32(postTs)
  {
    Packet(routeType, TYPE_TXT_MSG, 0, None, path,
      Datagram(c, secret, PathHash(destPubKey), PathHash(roomPubKey),
               PushInner(postTs, attempt, author, text)), hashSize)
  }

  function TryDecryptPush(c: Suite, payload: bytes, secret: bytes): (m: Option<RoomPush>)
    requires |secret| >= BLOCK
    ensures m.Some? ==> IsU32(m.value.postTs)
  {
    match OpenDatagram(c, secret, payload)
    case None => None
    case Some(plain) =>
      Some(RoomPush(FromLe4(plain[..4]), plain[4] % 4, plain[5..5 + AUTHOR_PREFIX_SIZE],
                    CutNul(plain[5 + AUTHOR_PREFIX_SIZE..])))
  }

  lemma PushRoundTrip(c: Suite, secret: bytes, destHash: int, srcHash: int,
                      postTs: int, attempt: int, author: bytes, text: bytes)
    requires |secret| >= BLOCK && IsU32(postTs) && |author| == PUB_KEY_SIZE
    ensures TryDecryptPush(c, Datagram(c, secret, destHash, srcHash, PushInner(postTs, attempt, author, text)), secret)
         == Some(RoomPush(postTs, attempt % 4, author[..AUTHOR_PREFIX_SIZE], CutNul(text)))
    ensures CutNul(text) == text <==> NulFree(text)
  {
    var inner := PushInner(postTs, attempt, author, text);
    DatagramOpens(c, secret, destHash, srcHash, inner);
    CutNulIdentity(text);
    PushInnerFields(postTs, attempt, author, text, Zeros(PadLength(|inner|)));
  }

  lemma PushInnerFields(postTs: int, attempt: int, author: bytes, text: bytes, zeros: bytes)
    requires IsU32(postTs) && |author| == PUB_KEY_SIZE
    ensures var plain := PushInner(postTs, attempt, author, text) + zeros;
            && FromLe4(plain[..4]) == postTs && plain[4] % 4 == attempt % 4
            && plain[5..5 + AUTHOR_PREFIX_SIZE] == author[..AUTHOR_PREFIX_SIZE]
            && CutNul(plain[5 + AUTHOR_PREFIX_SIZE..]) == CutNul(text)
  {
    var prefix := author[..AUTHOR_PREFIX_SIZE];
    var flags := FlagsByte(attempt, TXT_TYPE_SIGNED_PLAIN);
    FlagsFields(attempt, TXT_TYPE_SIGNED_PLAIN);
    var plain := Le4(postTs) + [flags] + prefix + text + [0] + zeros;
    assert PushInner(postTs, attempt, author, text) + zeros == plain;
    assert plain[..4] == Le4(postTs) && plain[4] == flags;
    assert plain[5..5 + AUTHOR_PREFIX_SIZE] == prefix;
    assert plain[5 + AUTHOR_PREFIX_SIZE..] == text + [0] + zeros;
    CutNulTerminated(text, zeros);
  }

  // ---- push delivery ----

  datatype PushJob = PushJob(secret: bytes, destPubKey: bytes, roomPubKey: bytes, postTs: int, author: bytes,
                             text: bytes, directPath: bytes, directHashSize: int, direct: int, flood: int)

  predicate ValidPush(j: PushJob) {
    |j.secret| >= BLOCK && j.destPubKey != [] && j.roomPubKey != [] && IsU32(j.postTs)
  }

  function PushAttempts(j: PushJob): seq<Attempt>
    requires j.direct >= 0 && j.flood >= 0
  {
    Attempts(j.directPath, j.directHashSize, j.direct, j.flood)
  }

  function PushShot(c: Suite, j: PushJob, i: nat, a: Attempt): Result<Shot, DeliveryError>
    requires ValidPush(j)
  {
    match Encode(PushPacket(c, j.secret, j.destPubKey, j.roomPubKey, j.postTs, j.author, j.text, i % 4,
                            a.routeType, a.path, a.hashSize))
    case Failure(e) => Failure(BadPacket(e))
    case Success(wire) =>
      Success(Shot(a.routeType, wire, PushAckHash(c, j.postTs, i % 4, j.author, j.text, j.destPubKey)))
  }

  function PushShots(c: Suite, j: PushJob): seq<Result<Shot, DeliveryError>>
    requires ValidPush(j) && j.direct >= 0 && j.flood >= 0
  {
    var a := PushAttempts(j);
    seq(|a|, i requires 0 <= i < |a| => PushShot(c, j, i, a[i]))
  }

  method TakePushShot(c: Suite, j: PushJob, i: nat, a: Attempt) returns (shot: Result<Shot, DeliveryError>)
    requires ValidPush(j)
    ensures shot == PushShot(c, j, i, a)
  {
    var attempt := i % 4;
    var packet := PushPacket(c, j.secret, j.destPubKey, j.roomPubKey, j.postTs, j.author, j.text, attempt,
                             a.routeType, a.path, a.hashSize);
    var ackHash := PushAckHash(c, j.postTs, attempt, j.author, j.text, j.destPubKey);
    var wire := EncodePacket(packet);
    if wire.Failure? {
      return Failure(BadPacket(wire.error));
    }
    return Success(Shot(a.routeType, wire.value, ackHash));
  }

  method DeliverRoomPushWithAck(c: Suite, j: PushJob, acked: nat -> bool)
    returns (published: seq<bytes>, r: Result<DeliveryResult, DeliveryError>)
    requires ValidPush(j)
    ensures j.direct < 0 || j.flood < 0 ==> published == [] && r == Failure(NegativeAttempts)
    ensures j.direct >= 0 && j.flood >= 0 ==>
      if PushAttempts(j) == [] then published == [] && r == Failure(NoAttempts)
      else Delivered(PushShots(c, j), acked, published, r)
  {
    published := [];
    if j.direct < 0 || j.flood < 0 {
      return published, Failure(NegativeAttempts);
    }
    var attempts := [];
    if j.directPath != [] {
      attempts := attempts + seq(j.direct, _ => Attempt(DIRECT, j.directPath, j.directHashSize));
    }
    attempts := attempts + seq(j.flood, _ => Attempt(FLOOD, [], 1));
    assert attempts == PushAttempts(j);
    if attempts == [] {
      return published, Failure(NoAttempts);
    }
    r := Failure(NoAttempts);
    for i := 0 to |attempts|
      invariant |published| == i && Unacked(PushShots(c, j), acked, published)
      invariant i == |attempts| ==> Delivered(PushShots(c, j), acked, published, r)
    {
      NextShot(PushShots(c, j), acked, published);
      var shot := TakePushShot(c, j, i, attempts[i]);
      if shot.Failure? {
        return published, Failure(shot.error);
      }
      published := published + [shot.value.wire];
      r := Success(Outcome(shot.value, i, acked(i)));
      if acked(i) {
        return;
      }
    }
  }

  /** The whole of a push delivery: what it publishes and how it ends, refused configurations included. */
  ghost function PushDelivery(c: Suite, j: PushJob, acked: nat -> bool): Delivery
    requires ValidPush(j)
  {
    if j.direct < 0 || j.flood < 0 then Delivery([], Failure(NegativeAttempts))
    else if PushAttempts(j) == [] then Delivery([], Failure(NoAttempts))
    else DeliveryOf(PushShots(c, j), acked)
  }

  lemma DeliveredIsPushDelivery(c: Suite, j: PushJob, acked: nat -> bool, wires: seq<bytes>,
                                r: Result<DeliveryResult, DeliveryError>)
    requires ValidPush(j) && j.direct >= 0 && j.flood >= 0 && PushAttempts(j) != []
    requires Delivered(PushShots(c, j), acked, wires, r)
    ensures Delivery(wires, r) == PushDelivery(c, j, acked)
  {
    var d := DeliveryOf(PushShots(c, j), acked);
    DeliveryDetermined(PushShots(c, j), acked, wires, r, d.wires, d.result);
  }

  /** In a push run the timestamp is fixed, so attempts hash the same bytes iff they agree mod 4. */
  lemma PushAckInputsAgreeModFour(j: PushJob, i: nat, k: nat)
    requires IsU32(j.postTs)
    ensures var one := PushAckInput(j.postTs, i % 4, j.author, j.text, j.destPubKey);
            var other := PushAckInput(j.postTs, k % 4, j.author, j.text, j.destPubKey);
            one == other <==> i % 4 == k % 4
  {
    PushInputIsAckInput(j.postTs, i % 4, j.author, j.text, j.destPubKey);
    PushInputIsAckInput(j.postTs, k % 4, j.author, j.text, j.destPubKey);
    AckInputEqual(j.postTs, i % 4, j.postTs, k % 4, AuthorPrefix(j.author) + j.text, j.destPubKey,
                  TXT_TYPE_SIGNED_PLAIN);
  }

  lemma PushInputIsAckInput(postTs: int, attempt: int, author: bytes, text: bytes, destPubKey: bytes)
    requires IsU32(postTs)
    ensures PushAckInput(postTs, attempt, author, text, destPubKey)
         == AckInput(postTs, attempt, AuthorPrefix(author) + text, destPubKey, TXT_TYPE_SIGNED_PLAIN)
  {
  }

  /** With a usable route every shot of a push run can be fired. */
  lemma UsablePushNeverFails(c: Suite, j: PushJob, i: nat)
    requires ValidPush(j) && j.direct >= 0 && j.flood >= 0 && i < |PushAttempts(j)|
    requires j.directPath != [] ==> RouteFits(j.directPath, j.directHashSize)
    ensures PushShots(c, j)[i].Success?
  {
    var a := PushAttempts(j)[i];
    assert RouteFits(a.path, a.hashSize);
  }

  lemma PushShotIsPacket(c: Suite, j: PushJob, i: nat)
    requires ValidPush(j) && j.direct >= 0 && j.flood >= 0 && i < |PushAttempts(j)|
    requires PushShots(c, j)[i].Success?
    ensures var a := PushAttempts(j)[i];
            var p := PushPacket(c, j.secret, j.destPubKey, j.roomPubKey, j.postTs, j.author, j.text, i % 4,
                                a.routeType, a.path, a.hashSize);
            var shot := PushShots(c, j)[i].value;
            Encodable(p) && shot.wire == Wire(p) && InRange(p)
            && shot.ackHash == PushAckHash(c, j.postTs, i % 4, j.author, j.text, j.destPubKey)
  {
    var a := PushAttempts(j)[i];
    assert a.routeType == DIRECT || a.routeType == FLOOD;
    assert PushShots(c, j)[i] == PushShot(c, j, i, a);
  }

  // ---- both ends of a push ----

  /**
    Attempt i of a push from roomSeed's key to clientSeed's, which both ends can read; its route is one that decodes.
   */
  ghost predicate PushLinked(c: Suite, j: PushJob, i: nat, roomSeed: bytes, clientSeed: bytes) {
    && ValidPush(j) && j.direct >= 0 && j.flood >= 0 && i < |PushAttempts(j)|
    && Agree(c, roomSeed, j.roomPubKey, clientSeed, j.destPubKey) && c.ecdh(roomSeed, j.destPubKey) == Some(j.secret)
    && PushShots(c, j)[i].Success? && |j.directPath| <= MAX_PATH_SIZE && |j.author| == PUB_KEY_SIZE
  }

  /** The packet of attempt i. */
  function PushAttemptPacket(c: Suite, j: PushJob, i: nat): Packet
    requires ValidPush(j) && j.direct >= 0 && j.flood >= 0 && i < |PushAttempts(j)|
  {
    var a := PushAttempts(j)[i];
    Packet(a.routeType, TYPE_TXT_MSG, 0, None, a.path, PushAttemptPayload(c, j, i), a.hashSize)
  }

  function PushAttemptPayload(c: Suite, j: PushJob, i: nat): bytes
    requires ValidPush(j)
  {
    Datagram(c, j.secret, PathHash(j.destPubKey), PathHash(j.roomPubKey), PushInner(j.postTs, i % 4, j.author, j.text))
  }

  lemma PushAttemptIsPublished(c: Suite, j: PushJob, i: nat, roomSeed: bytes, clientSeed: bytes)
    requires PushLinked(c, j, i, roomSeed, clientSeed)
    ensures var shot := PushShots(c, j)[i].value;
      && WellFormed(PushAttemptPacket(c, j, i)) && Wire(PushAttemptPacket(c, j, i)) == shot.wire
      && shot.ackHash == PushAckHash(c, j.postTs, i % 4, j.author, j.text, j.destPubKey)
  {
    PushShotIsPacket(c, j, i);
  }

  /** A push that has been relayed floods exactly when it was to. */
  lemma PushAttemptFloods(c: Suite, j: PushJob, i: nat, roomSeed: bytes, clientSeed: bytes, got: Packet)
    requires PushLinked(c, j, i, roomSeed, clientSeed) && Arrives(PushShots(c, j)[i].value.wire, got)
    ensures Relayed(PushAttemptPacket(c, j, i), got)
    ensures IsFlood(got) <==> PushAttempts(j)[i].routeType == FLOOD
  {
    PushAttemptIsPublished(c, j, i, roomSeed, clientSeed);
    ArrivesAsRelayed(PushAttemptPacket(c, j, i), got);
    var a := PushAttempts(j)[i];
    assert a.routeType == DIRECT || a.routeType == FLOOD;
  }

  /** The client opens a push that has been relayed to what the room put in, the text up to its first NUL. */
  lemma PushAttemptArrives(c: Suite, j: PushJob, i: nat, roomSeed: bytes, clientSeed: bytes, got: Packet)
    requires PushLinked(c, j, i, roomSeed, clientSeed) && Arrives(PushShots(c, j)[i].value.wire, got)
    ensures RouteFits(got.path, got.hashSize)
    ensures TryDecryptPush(c, got.payload, c.ecdh(clientSeed, j.roomPubKey).value) ==
      Some(RoomPush(j.postTs, i % 4, j.author[..AUTHOR_PREFIX_SIZE], CutNul(j.text)))
  {
    PushAttemptFloods(c, j, i, roomSeed, clientSeed, got);
    PushOpens(c, j.secret, PathHash(j.destPubKey), PathHash(j.roomPubKey), j.postTs, i % 4, j.author, j.text,
              got.payload);
  }

  lemma PushOpens(c: Suite, secret: bytes, dest: byte, src: byte, postTs: int, attempt: int, author: bytes, text: bytes,
                  payload: bytes)
    requires |secret| >= BLOCK && IsU32(postTs) && 0 <= attempt < 4 && |author| == PUB_KEY_SIZE
    requires payload == Datagram(c, secret, dest, src, PushInner(postTs, attempt, author, text))
    ensures TryDecryptPush(c, payload, secret)
      == Some(RoomPush(postTs, attempt, author[..AUTHOR_PREFIX_SIZE], CutNul(text)))
  {
    assert attempt % 4 == attempt;
    PushRoundTrip(c, secret, dest, src, postTs, attempt, author, text);
  }

  /** It hashes the bytes the room did exactly when the text has no NUL, and then computes the hash that is awaited. */
  lemma PushAttemptHashed(c: Suite, j: PushJob, i: nat, roomSeed: bytes, clientSeed: bytes, m: RoomPush)
    requires PushLinked(c, j, i, roomSeed, clientSeed)
    requires m == RoomPush(j.postTs, i % 4, j.author[..AUTHOR_PREFIX_SIZE], CutNul(j.text))
    ensures var heard := PushAckInput(m.postTs, m.attempt, m.authorPrefix, m.text, j.destPubKey);
      heard == PushAckInput(j.postTs, i % 4, j.author, j.text, j.destPubKey) <==> NulFree(j.text)
    ensures NulFree(j.text) ==>
      PushAckHash(c, m.postTs, m.attempt, m.authorPrefix, m.text, j.destPubKey) == PushShots(c, j)[i].value.ackHash
  {
    PushAttemptIsPublished(c, j, i, roomSeed, clientSeed);
    PushCutChangesInput(j.postTs, i % 4, j.author, j.text, j.destPubKey);
  }

  lemma PushCutChangesInput(postTs: int, attempt: int, author: bytes, text: bytes, key: bytes)
    requires IsU32(postTs) && |author| == PUB_KEY_SIZE
    ensures var cut := PushAckInput(postTs, attempt, author[..AUTHOR_PREFIX_SIZE], CutNul(text), key);
            cut == PushAckInput(postTs, attempt, author, text, key) <==> NulFree(text)
  {
    CutNulIdentity(text);
    CutNulShorter(text);
    var prefix := author[..AUTHOR_PREFIX_SIZE];
    assert AuthorPrefix(prefix) == prefix == AuthorPrefix(author);
    var cut := PushAckInput(postTs, attempt, prefix, CutNul(text), key);
    var whole := PushAckInput(postTs, attempt, author, text, key);
    assert |cut| - |CutNul(text)| == |whole| - |text|;
  }

  /**
    End to end: however a push published as attempt i is relayed to the client, it opens it and, for NUL-free text,
    hashing what it parsed with its own key gives the hash the room waits for; its acknowledgement, by either carrier
    and however that is relayed back, brings it back.
   */
  lemma PushAckAgreement(c: Suite, j: PushJob, i: nat, roomSeed: bytes, clientSeed: bytes, got: Packet, back: Packet)
    requires PushLinked(c, j, i, roomSeed, clientSeed) && NulFree(j.text)
    requires Arrives(PushShots(c, j)[i].value.wire, got)
    ensures var shot := PushShots(c, j)[i].value;
            var secret := c.ecdh(clientSeed, j.roomPubKey).value;
            && RouteFits(got.path, got.hashSize)
            && var m := TryDecryptPush(c, got.payload, secret);
            && m.Some?
            && shot.ackHash ==
              PushAckHash(c, m.value.postTs, m.value.attempt, m.value.authorPrefix, m.value.text, j.destPubKey)
            && var reply := AckReply(c, secret, PathHash(j.roomPubKey), j.destPubKey, shot.ackHash, got);
            && Decode(Wire(reply)) == Success(reply) && Relayed(reply, reply)
            && (Relayed(reply, back) ==> AckCarried(c, back, j.secret) == Some(shot.ackHash))
  {
    PushAttemptArrives(c, j, i, roomSeed, clientSeed, got);
    PushAttemptHashed(c, j, i, roomSeed, clientSeed, TryDecryptPush(c, got.payload, j.secret).value);
    AckRelayedBack(c, j.secret, PathHash(j.roomPubKey), j.destPubKey, PushShots(c, j)[i].value.ackHash, got, back);
  }

  /** Every attempt decodes as published, so it may arrive as it is, without any repeater. */
  lemma PushAttemptDecodes(c: Suite, j: PushJob, i: nat, roomSeed: bytes, clientSeed: bytes)
    requires PushLinked(c, j, i, roomSeed, clientSeed)
    ensures var wire := PushShots(c, j)[i].value.wire; Decode(wire).Success? && Arrives(wire, Decode(wire).value)
  {
    PushAttemptIsPublished(c, j, i, roomSeed, clientSeed);
    DecodeOfEncode(PushAttemptPacket(c, j, i));
  }

  // ---- the bytes of a push ----

  lemma PushHashedBytes(c: Suite, postTs: int, attempt: int, author: bytes, text: bytes, key: bytes)
    requires IsU32(postTs) && 0 <= attempt < 4 && |author| >= AUTHOR_PREFIX_SIZE
    ensures PushAckHash(c, postTs, attempt, author, text, key)
         == c.sha256(Le4(postTs) + [attempt + 8] + author[..AUTHOR_PREFIX_SIZE] + text + key)[..ACK_HASH_SIZE]
  {
    assert PushAckInput(postTs, attempt, author, text, key)
        == Le4(postTs) + [attempt + 8] + author[..AUTHOR_PREFIX_SIZE] + text + key;
  }

  /** Attempt i of a push awaits the hash of these bytes: the author's prefix before the text, and the client's key. */
  lemma PushAwaits(c: Suite, j: PushJob, i: nat)
    requires ValidPush(j) && j.direct >= 0 && j.flood >= 0 && i < |PushAttempts(j)| && PushShots(c, j)[i].Success?
    requires |j.author| == PUB_KEY_SIZE
    ensures PushShots(c, j)[i].value.ackHash ==
      c.sha256(Le4(j.postTs) + [i % 4 + 8] + j.author[..4] + j.text + j.destPubKey)[..ACK_HASH_SIZE]
  {
    PushShotIsPacket(c, j, i);
    PushHashedBytes(c, j.postTs, i % 4, j.author, j.text, j.destPubKey);
  }

  /** What attempt i is, on the air. */
  lemma PushOnAir(c: Suite, j: PushJob, i: nat)
    requires ValidPush(j) && j.direct >= 0 && j.flood >= 0 && i < |PushAttempts(j)| && PushShots(c, j)[i].Success?
    requires |j.directPath| <= MAX_PATH_SIZE && |j.author| == PUB_KEY_SIZE
    ensures var a := PushAttempts(j)[i];
      Decode(PushShots(c, j)[i].value.wire) == Success(
        Packet(a.routeType, TYPE_TXT_MSG, 0, None, a.path,
               [j.destPubKey[0], j.roomPubKey[0]]
               + Seal(c, j.secret, Le4(j.postTs) + [i % 4 + 8] + j.author[..4] + j.text + [0]), a.hashSize))
  {
    PushShotIsPacket(c, j, i);
    DecodeOfEncode(PushAttemptPacket(c, j, i));
    PushBytes(c, j, i % 4);
  }

  lemma PushBytes(c: Suite, j: PushJob, attempt: int)
    requires ValidPush(j) && |j.author| == PUB_KEY_SIZE && 0 <= attempt < 4
    ensures Datagram(c, j.secret, PathHash(j.destPubKey), PathHash(j.roomPubKey),
                     PushInner(j.postTs, attempt, j.author, j.text))
         == [j.destPubKey[0], j.roomPubKey[0]]
            + Seal(c, j.secret, Le4(j.postTs) + [attempt + 8] + j.author[..4] + j.text + [0])
  {
    var dest: int, src: int := j.destPubKey[0], j.roomPubKey[0];
    assert dest % 256 == dest && src % 256 == src;
    assert PushInner(j.postTs, attempt, j.author, j.text)
      == Le4(j.postTs) + [attempt + 8] + j.author[..4] + j.text + [0];
  }

  /**
    A push of which no attempt is acknowledged sends all of them: directly along a known path first, and then floods.
   */
  lemma UnackedPushesAll(c: Suite, j: PushJob, acked: nat -> bool, published: seq<bytes>,
                         r: Result<DeliveryResult, DeliveryError>, i: nat)
    requires ValidPush(j) && j.direct >= 0 && j.flood >= 0 && |j.directPath| <= MAX_PATH_SIZE
    requires |j.author| == PUB_KEY_SIZE
    requires Delivered(PushShots(c, j), acked, published, r) && r.Success? && forall k :: !acked(k)
    ensures var direct := if j.directPath == [] then 0 else j.direct;
      && |published| == direct + j.flood
      && (i < |published| ==>
            && Decode(published[i]).Success?
            && var p := Decode(published[i]).value;
            if i < direct then p.routeType == DIRECT && p.path == j.directPath && p.hashSize == j.directHashSize
            else p.routeType == FLOOD && p.path == [])
  {
    if i < |published| {
      PushOnAir(c, j, i);
    }
  }

  // ---- the bytes of logins and their answers ----

  /** A login is the room's address, the client's key, and timestamp, sync start and password, sealed. */
  lemma LoginBytes(c: Suite, secret: bytes, roomPubKey: bytes, req: LoginReq)
    requires |secret| >= BLOCK && |req.clientPubKey| == PUB_KEY_SIZE && IsU32(req.timestamp) && IsU32(req.syncSince)
    requires roomPubKey != []
    ensures LoginPayload(c, secret, roomPubKey[0], req) ==
      [roomPubKey[0]] + req.clientPubKey + Seal(c, secret, Le4(req.timestamp) + Le4(req.syncSince) + req.password + [0])
  {
    var room: int := roomPubKey[0];
    assert room % 256 == room;
  }

  /** An answer is both addresses, and server time, two zeros, role, permissions, filler and version, sealed. */
  lemma LoginResponseBytes(c: Suite, secret: bytes, dest: byte, src: byte, serverTs: int, isAdmin: bool,
                           permissions: byte, random: bytes, routeType: int, path: bytes, hashSize: int)
    requires |secret| >= BLOCK && IsU32(serverTs)
    ensures
      LoginResponsePacket(c, secret, dest, src, serverTs, isAdmin, permissions, random, routeType, path, hashSize) ==
      Packet(routeType, TYPE_RESPONSE, 0, None, path,
             [dest, src]
             + Seal(c, secret, Le4(serverTs) + [0, 0, if isAdmin then 1 else 0, permissions] + random + [1]), hashSize)
  {
    var d: int, s: int, p: int := dest, src, permissions;
    assert d % 256 == d && s % 256 == s && p % 256 == p;
  }
}
