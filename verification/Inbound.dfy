/** How the servers read an inbound packet: addressing, trial decryption, acknowledgement, adverts. */
module Inbound {
  import opened Bytes
  import opened Wrappers
  import opened Packets
  import opened Crypto
  import opened Messaging
  import Advert
  import Recent

  /** The node's own identity, and its way of naming clients that have not advertised a name. */
  datatype Host = Host(c: Suite, seed: bytes, pubKey: bytes, nickname: bytes -> bytes)

  /** A text message, or a PATH message, and the peer it was attributed to. */
  datatype Handled = Handled(pub: bytes, msg: TxtMsg)
  datatype LearnedPath = LearnedPath(pub: bytes, msg: PathMsg)

  // ---- what a packet says to this host ----

  predicate Addressed(host: Host, p: Packet)
    requires host.pubKey != []
  {
    p.payload != [] && p.payload[0] == PathHash(host.pubKey)
  }

  /** The peer's key opens the message, and the message says so. */
  predicate OpensTxt(host: Host, payload: bytes, h: Handled) {
    host.c.ecdh(host.seed, h.pub).Some?
      && TryDecryptTxt(host.c, payload, host.c.ecdh(host.seed, h.pub).value) == Some(h.msg)
  }

  predicate OpensPath(host: Host, payload: bytes, l: LearnedPath) {
    host.c.ecdh(host.seed, l.pub).Some?
      && TryDecryptPath(host.c, payload, host.c.ecdh(host.seed, l.pub).value) == Some(l.msg)
  }

  /** Some text message opens under this peer's key; some PATH message does. */
  predicate CanOpenTxt(host: Host, payload: bytes, pub: bytes) {
    host.c.ecdh(host.seed, pub).Some? && TryDecryptTxt(host.c, payload, host.c.ecdh(host.seed, pub).value).Some?
  }

  predicate CanOpenPath(host: Host, payload: bytes, pub: bytes) {
    host.c.ecdh(host.seed, pub).Some? && TryDecryptPath(host.c, payload, host.c.ecdh(host.seed, pub).value).Some?
  }

  lemma OpenedTxt(host: Host, payload: bytes, h: Handled)
    requires OpensTxt(host, payload, h)
    ensures |payload| >= MIN_DATAGRAM && IsU32(h.msg.timestamp) && IsTxtType(h.msg.txtType)
    ensures h.msg.srcHash == payload[1]
  {
  }

  /** The advert a packet carries, if it decodes, is not our own and is properly signed. */
  function Advertised(host: Host, p: Packet): (r: Option<Advert.Advertisement>)
    ensures r.Some? ==> |r.value.pubKey| == PUB_KEY_SIZE
  {
    match Advert.DecodeAdvert(p.payload)
    case Failure(_) => None
    case Success(ad) => if ad.pubKey == host.pubKey || !Advert.SignatureValid(host.c, ad) then None else Some(ad)
  }

  predicate Stale(advertTs: map<bytes, int>, ad: Advert.Advertisement) {
    ad.pubKey in advertTs && ad.timestamp < advertTs[ad.pubKey]
  }

  function AckKey(host: Host, h: Handled): Recent.Key
    requires IsU32(h.msg.timestamp) && IsTxtType(h.msg.txtType)
  {
    (h.msg.srcHash, AckHash(host.c, h.msg, h.pub))
  }

  /** The acknowledgement of a text message that arrived in packet p. */
  function PostAck(host: Host, h: Handled, p: Packet): Packet
    requires OpensTxt(host, p.payload, h) && WellFormed(p) && host.pubKey != []
  {
    OpenedTxt(host, p.payload, h);
    AckReply(host.c, host.c.ecdh(host.seed, h.pub).value, h.msg.srcHash, host.pubKey, AckHash(host.c, h.msg, h.pub), p)
  }

  /** The sender reads out of the acknowledgement the hash it waits for. */
  lemma PostAckReads(host: Host, h: Handled, p: Packet)
    requires OpensTxt(host, p.payload, h) && WellFormed(p) && host.pubKey != []
    ensures var ack := PostAck(host, h, p);
      && WellFormed(ack) && Decode(Wire(ack)) == Success(ack) && IsU32(h.msg.timestamp) && IsTxtType(h.msg.txtType)
      && AckCarried(host.c, ack, host.c.ecdh(host.seed, h.pub).value) == Some(AckHash(host.c, h.msg, h.pub))
  {
    OpenedTxt(host, p.payload, h);
    AckComesBack(host.c, host.c.ecdh(host.seed, h.pub).value, h.msg.srcHash, host.pubKey, AckHash(host.c, h.msg, h.pub),
                 p);
  }

  /** The key a message is remembered by: the address it came from, and the hash of the bytes its sender hashes. */
  lemma AckKeyBytes(host: Host, h: Handled)
    requires IsU32(h.msg.timestamp) && IsTxtType(h.msg.txtType)
    ensures AckKey(host, h) == (h.msg.srcHash,
      host.c.sha256(Le4(h.msg.timestamp) + [h.msg.attempt % 4 + 4 * h.msg.txtType] + h.msg.text + h.pub)[..4])
  {
    AckHashBytes(host.c, h.msg, h.pub);
  }

  /** Two messages with one key: from one address, and alike in those four bytes of hash. */
  predicate SameKey(host: Host, a: TxtMsg, pubA: bytes, b: TxtMsg, pubB: bytes)
    requires IsU32(a.timestamp) && IsTxtType(a.txtType) && IsU32(b.timestamp) && IsTxtType(b.txtType)
  {
    && a.srcHash == b.srcHash
    && host.c.sha256(Le4(a.timestamp) + [a.attempt % 4 + 4 * a.txtType] + a.text + pubA)[..4]
    == host.c.sha256(Le4(b.timestamp) + [b.attempt % 4 + 4 * b.txtType] + b.text + pubB)[..4]
  }

  lemma SameKeyExactly(host: Host, a: Handled, b: Handled)
    requires IsU32(a.msg.timestamp) && IsTxtType(a.msg.txtType) && IsU32(b.msg.timestamp) && IsTxtType(b.msg.txtType)
    ensures AckKey(host, a) == AckKey(host, b) <==> SameKey(host, a.msg, a.pub, b.msg, b.pub)
  {
    AckKeyBytes(host, a);
    AckKeyBytes(host, b);
  }

  /**
    The acknowledgement of a flood is a flooded PATH, in which the sender reads the route its message took and the hash
    of its bytes; of anything else, an ACK of that hash.
   */
  lemma PostAckShows(host: Host, h: Handled, p: Packet)
    requires OpensTxt(host, p.payload, h) && WellFormed(p) && host.pubKey != []
    ensures var ack, m := PostAck(host, h, p), h.msg;
      && IsU32(m.timestamp) && IsTxtType(m.txtType) && ack.routeType == FLOOD && ack.path == []
      && var hash := host.c.sha256(Le4(m.timestamp) + [m.attempt % 4 + 4 * m.txtType] + m.text + h.pub)[..4];
      if IsFlood(p) then
        && ack.payloadType == TYPE_PATH
        && TryDecryptPath(host.c, ack.payload, host.c.ecdh(host.seed, h.pub).value) ==
             Some(PathMsg(p.payload[1], host.pubKey[0], p.path, p.hashSize, TYPE_ACK, hash))
      else ack.payloadType == TYPE_ACK && ack.payload == hash
  {
    OpenedTxt(host, p.payload, h);
    AckHashBytes(host.c, h.msg, h.pub);
    AckReplyReads(host.c, host.c.ecdh(host.seed, h.pub).value, h.msg.srcHash, host.pubKey,
                  AckHash(host.c, h.msg, h.pub), p);
  }

  /** An advert counts exactly when it decodes, is of another node, and its key signed key, timestamp and data. */
  lemma AdvertisedExactly(host: Host, p: Packet, ad: Advert.Advertisement)
    ensures Advertised(host, p) == Some(ad) <==>
      && Advert.DecodeAdvert(p.payload) == Success(ad) && ad.pubKey != host.pubKey
      && host.c.verify(ad.pubKey, ad.signature, ad.pubKey + Le4(ad.timestamp) + ad.rawAppData)
    ensures Advert.DecodeAdvert(p.payload) == Success(ad) ==>
      && |p.payload| >= 100 && ad.pubKey == p.payload[..32] && ad.timestamp == FromLe4(p.payload[32..36])
      && ad.signature == p.payload[36..100] && ad.rawAppData == p.payload[100..]
  {
  }

  // ---- whose message is it ----

  predicate HasSecret(host: Host, pub: bytes) {
    host.c.ecdh(host.seed, pub).Some?
  }

  /** How a search among candidates ends: with an answer, without one, or at a key that key agreement refuses. */
  datatype Search<T> = Hit(value: T) | Nobody | Raised

  predicate OpensNone(host: Host, payload: bytes, pub: bytes) {
    HasSecret(host, pub) && !CanOpenTxt(host, payload, pub)
  }

  predicate OpensNoPath(host: Host, payload: bytes, pub: bytes) {
    HasSecret(host, pub) && !CanOpenPath(host, payload, pub)
  }

  /**
    The search for the sender of a text message: candidates are tried in turn, and one without a shared secret ends it,
    whoever comes after.
   */
  function SearchTxt(host: Host, payload: bytes, list: seq<bytes>): (r: Search<Handled>)
    ensures r.Hit? ==> OpensTxt(host, payload, r.value)
  {
    if list == [] then Nobody
    else
      match host.c.ecdh(host.seed, list[0])
      case None => Raised
      case Some(secret) =>
        match TryDecryptTxt(host.c, payload, secret)
        case Some(m) => Hit(Handled(list[0], m))
        case None => SearchTxt(host, payload, list[1..])
  }

  /**
    It ends at the first candidate whose key opens the message or has no secret, and finds nobody if there is none such.
   */
  lemma {:induction false} SearchTxtEnds(host: Host, payload: bytes, list: seq<bytes>)
    ensures var r := SearchTxt(host, payload, list);
      && (r.Nobody? <==> forall p :: p in list ==> OpensNone(host, payload, p))
      && (!r.Nobody? ==> exists i :: EndsAtTxt(host, payload, list, r, i))
  {
    if list != [] && OpensNone(host, payload, list[0]) {
      SearchTxtEnds(host, payload, list[1..]);
      assert forall p :: p in list <==> p == list[0] || p in list[1..];
      var r := SearchTxt(host, payload, list);
      if !r.Nobody? {
        var i :| EndsAtTxt(host, payload, list[1..], r, i);
        assert EndsAtTxt(host, payload, list, r, i + 1);
      }
    } else if list != [] {
      assert EndsAtTxt(host, payload, list, SearchTxt(host, payload, list), 0);
    }
  }

  /** The search has this result because of the i-th candidate. */
  ghost predicate EndsAtTxt(host: Host, payload: bytes, list: seq<bytes>, r: Search<Handled>, i: int) {
    && 0 <= i < |list| && (forall k :: 0 <= k < i ==> OpensNone(host, payload, list[k]))
    && (r.Raised? <==> !HasSecret(host, list[i])) && (r.Hit? ==> r.value.pub == list[i])
  }

  method FirstToOpenTxt(host: Host, payload: bytes, list: seq<bytes>) returns (r: Search<Handled>)
    ensures r == SearchTxt(host, payload, list)
  {
    for i := 0 to |list|
      invariant SearchTxt(host, payload, list) == SearchTxt(host, payload, list[i..])
    {
      assert list[i..][1..] == list[i + 1..];
      var secret := host.c.ecdh(host.seed, list[i]);
      if secret.None? {
        return Raised;
      }
      var msg := TryDecryptTxt(host.c, payload, secret.value);
      if msg.Some? {
        return Hit(Handled(list[i], msg.value));
      }
    }
    return Nobody;
  }

  /**
    The search for the sender of a PATH message: candidates are tried in turn, and one without a shared secret ends it,
    whoever comes after.
   */
  function SearchPath(host: Host, payload: bytes, list: seq<bytes>): (r: Search<LearnedPath>)
    ensures r.Hit? ==> OpensPath(host, payload, r.value)
  {
    if list == [] then Nobody
    else
      match host.c.ecdh(host.seed, list[0])
      case None => Raised
      case Some(secret) =>
        match TryDecryptPath(host.c, payload, secret)
        case Some(m) => Hit(LearnedPath(list[0], m))
        case None => SearchPath(host, payload, list[1..])
  }

  /**
    It ends at the first candidate whose key opens the message or has no secret, and finds nobody if there is none such.
   */
  lemma {:induction false} SearchPathEnds(host: Host, payload: bytes, list: seq<bytes>)
    ensures var r := SearchPath(host, payload, list);
      && (r.Nobody? <==> forall p :: p in list ==> OpensNoPath(host, payload, p))
      && (!r.Nobody? ==> exists i :: EndsAtPath(host, payload, list, r, i))
  {
    if list != [] && OpensNoPath(host, payload, list[0]) {
      SearchPathEnds(host, payload, list[1..]);
      assert forall p :: p in list <==> p == list[0] || p in list[1..];
      var r := SearchPath(host, payload, list);
      if !r.Nobody? {
        var i :| EndsAtPath(host, payload, list[1..], r, i);
        assert EndsAtPath(host, payload, list, r, i + 1);
      }
    } else if list != [] {
      assert EndsAtPath(host, payload, list, SearchPath(host, payload, list), 0);
    }
  }

  /** The search has this result because of the i-th candidate. */
  ghost predicate EndsAtPath(host: Host, payload: bytes, list: seq<bytes>, r: Search<LearnedPath>, i: int) {
    && 0 <= i < |list| && (forall k :: 0 <= k < i ==> OpensNoPath(host, payload, list[k]))
    && (r.Raised? <==> !HasSecret(host, list[i])) && (r.Hit? ==> r.value.pub == list[i])
  }

  method FirstToOpenPath(host: Host, payload: bytes, list: seq<bytes>) returns (r: Search<LearnedPath>)
    ensures r == SearchPath(host, payload, list)
  {
    for i := 0 to |list|
      invariant SearchPath(host, payload, list) == SearchPath(host, payload, list[i..])
    {
      assert list[i..][1..] == list[i + 1..];
      var secret := host.c.ecdh(host.seed, list[i]);
      if secret.None? {
        return Raised;
      }
      var msg := TryDecryptPath(host.c, payload, secret.value);
      if msg.Some? {
        return Hit(LearnedPath(list[i], msg.value));
      }
    }
    return Nobody;
  }

  /** The i-th candidate has no secret, and none before it has one that opens the message. */
  ghost predicate BadAt(host: Host, payload: bytes, list: seq<bytes>, i: int) {
    0 <= i < |list| && !HasSecret(host, list[i]) && forall k :: 0 <= k < i ==> OpensNone(host, payload, list[k])
  }

  /** A message is lost exactly when a key without a secret comes before the first that opens it. */
  lemma LostExactly(host: Host, payload: bytes, list: seq<bytes>)
    ensures SearchTxt(host, payload, list).Raised? <==> exists i :: BadAt(host, payload, list, i)
  {
    SearchTxtEnds(host, payload, list);
    var r := SearchTxt(host, payload, list);
    assert forall i :: BadAt(host, payload, list, i) ==> list[i] in list;
    if !r.Nobody? {
      var j :| EndsAtTxt(host, payload, list, r, j);
      assert !OpensNone(host, payload, list[j]);
      assert r.Raised? ==> BadAt(host, payload, list, j);
      assert forall i :: BadAt(host, payload, list, i) ==> i == j;
    }
  }

  /** So with two candidates it depends on who was filed first. */
  lemma OrderMatters(host: Host, payload: bytes, bad: bytes, h: Handled)
    requires !HasSecret(host, bad) && OpensTxt(host, payload, h)
    ensures SearchTxt(host, payload, [bad, h.pub]) == Raised && SearchTxt(host, payload, [h.pub, bad]) == Hit(h)
  {
    assert [bad, h.pub][0] == bad && [h.pub, bad][0] == h.pub;
  }

  // ---- received frames ----

  /** A received frame, when it is handled, and what the clock and the random source say then. */
  datatype Frame = Frame(wire: bytes, at: real, serverTs: int, random: bytes)

  ghost predicate Timely(frames: seq<Frame>, since: real) {
    && (forall i :: 0 <= i < |frames| ==> since <= frames[i].at && IsU32(frames[i].serverTs))
    && (forall i, j :: 0 <= i < j < |frames| ==> frames[i].at <= frames[j].at)
  }

  ghost predicate CacheSound(recent: Recent.Cache, history: seq<Recent.Call>, lastNow: real, ttl: real) {
    Recent.Represents(recent, history, lastNow, ttl) && Recent.Faithful(history, ttl) && Recent.InOrder(history)
  }
}
