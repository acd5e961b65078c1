/**
  The echo server (echo_server.py) as a transition system: caches and contacts, what each received frame may do, and
  whole runs.
 */
module EchoStates {
  import opened Bytes
  import opened Wrappers
  import opened Packets
  import opened Crypto
  import opened Messaging
  import opened Inbound
  import Advert
  import AckTable
  import Recent

  // ---- the best-path cache ----

  type Paths = map<Recent.Key, Packet>

  /** hash_count, of any packet that was received. */
  function HopCount(p: Packet): int {
    if p.hashSize > 0 then HashCount(p) else 0
  }

  /** remember_path: the first copy, then any copy with strictly more hops. */
  function PathRemembered(paths: Paths, key: Recent.Key, packet: Packet): Paths {
    if key !in paths || HopCount(packet) > HopCount(paths[key]) then paths[key := packet] else paths
  }

  /** The paths left when the keys older than the cutoff are purged from `seen`. */
  function PathsPurged(paths: Paths, seen: Recent.Cache, cutoff: real): Paths {
    map k | k in paths && !(k in seen && seen[k] < cutoff) :: paths[k]
  }

  datatype Caches = Caches(seen: Recent.Cache, paths: Paths)

  /** Both caches belong together: each path is that of a remembered message, and is a real path. */
  ghost predicate CachesOk(s: Caches) {
    s.paths.Keys <= s.seen.Keys && forall k :: k in s.paths ==> WellFormed(s.paths[k])
  }

  /** What handle_txt_msg does to the caches: remember_path first, then remember_message with its purge. */
  function Heard(s: Caches, key: Recent.Key, packet: Packet, now: real, ttl: real): Caches
  {
    Caches(Recent.Remembered(s.seen, key, now, ttl),
           PathsPurged(PathRemembered(s.paths, key, packet), s.seen, now - ttl))
  }

  /**
    After every message the paths belong to remembered messages. The path of the message itself is kept exactly
    when its key had not expired: re-accepting an expired key purges the path just recorded.
   */
  lemma HeardKeepsCaches(s: Caches, key: Recent.Key, packet: Packet, now: real, ttl: real)
    requires CachesOk(s) && WellFormed(packet)
    ensures CachesOk(Heard(s, key, packet, now, ttl))
    ensures key in Heard(s, key, packet, now, ttl).paths <==> !(key in s.seen && s.seen[key] < now - ttl)
  {
  }

  /** Both caches belong together, and the duplicate cache holds what full history would say. */
  ghost predicate CachesSound(s: Caches, history: seq<Recent.Call>, lastNow: real, ttl: real) {
    CachesOk(s) && CacheSound(s.seen, history, lastNow, ttl)
  }

  /** One message heard: both caches go on as full history says, and so does the answer. */
  lemma HeardOverHistory(s: Caches, history: seq<Recent.Call>, lastNow: real, key: Recent.Key, packet: Packet,
                         now: real, ttl: real)
    requires CachesSound(s, history, lastNow, ttl) && WellFormed(packet) && now >= lastNow
    ensures CachesSound(Heard(s, key, packet, now, ttl), Recent.Recorded(s.seen, history, key, now, ttl), now, ttl)
    ensures Recent.IsNew(s.seen, key, now, ttl) <==> !Recent.AcceptedSince(history, key, now - ttl)
  {
    HeardKeepsCaches(s, key, packet, now, ttl);
    Recent.RememberRefines(s.seen, history, lastNow, ttl, key, now);
    Recent.RecordFaithful(s.seen, history, lastNow, ttl, key, now);
  }

  datatype Copy = Copy(key: Recent.Key, packet: Packet, at: real)

  ghost predicate CopiesOk(copies: seq<Copy>) {
    && (forall i :: 0 <= i < |copies| ==> WellFormed(copies[i].packet))
    && (forall i, j :: 0 <= i < j < |copies| ==> copies[i].at <= copies[j].at)
  }

  ghost function HeardAll(s: Caches, copies: seq<Copy>, ttl: real): Caches
    decreases |copies|
  {
    if copies == [] then s
    else
      var n := |copies| - 1;
      Heard(HeardAll(s, copies[..n], ttl), copies[n].key, copies[n].packet, copies[n].at, ttl)
  }

  lemma {:induction false} HeardAllKeepsCaches(s: Caches, copies: seq<Copy>, ttl: real)
    requires CachesOk(s) && CopiesOk(copies)
    ensures CachesOk(HeardAll(s, copies, ttl))
    decreases |copies|
  {
    if copies != [] {
      var n := |copies| - 1;
      HeardAllKeepsCaches(s, copies[..n], ttl);
      HeardKeepsCaches(HeardAll(s, copies[..n], ttl), copies[n].key, copies[n].packet, copies[n].at, ttl);
    }
  }

  /** p is the earliest of the copies of `key` that have the most hops. */
  ghost predicate EarliestBest(p: Packet, copies: seq<Copy>, key: Recent.Key) {
    exists i :: 0 <= i < |copies| && BestAt(i, copies, key) && copies[i].packet == p
  }

  ghost predicate BestAt(i: nat, copies: seq<Copy>, key: Recent.Key)
    requires i < |copies|
  {
    && copies[i].key == key
    && (forall j :: 0 <= j < |copies| && copies[j].key == key ==>
          HopCount(copies[j].packet) <= HopCount(copies[i].packet))
    && (forall j :: 0 <= j < i && copies[j].key == key ==> HopCount(copies[j].packet) < HopCount(copies[i].packet))
  }

  /** A copy with no more hops leaves the best where it was. */
  lemma BestStays(i: nat, copies: seq<Copy>, key: Recent.Key)
    requires CopiesOk(copies) && copies != [] && CopiesOk(copies[..|copies| - 1]) && i < |copies| - 1
    requires BestAt(i, copies[..|copies| - 1], key)
    requires copies[|copies| - 1].key == key ==> HopCount(copies[|copies| - 1].packet) <= HopCount(copies[i].packet)
    ensures BestAt(i, copies, key)
  {
    var before := copies[..|copies| - 1];
    forall j | 0 <= j < |copies| && copies[j].key == key
      ensures HopCount(copies[j].packet) <= HopCount(copies[i].packet)
    {
      assert j < |before| ==> before[j] == copies[j];
    }
    forall j | 0 <= j < i && copies[j].key == key ensures HopCount(copies[j].packet) < HopCount(copies[i].packet) {
      assert before[j] == copies[j];
    }
  }

  /** A copy with more hops than the best is the new best. */
  lemma BestReplaced(i: nat, copies: seq<Copy>, key: Recent.Key)
    requires CopiesOk(copies) && copies != [] && CopiesOk(copies[..|copies| - 1]) && i < |copies| - 1
    requires BestAt(i, copies[..|copies| - 1], key)
    requires copies[|copies| - 1].key == key && HopCount(copies[|copies| - 1].packet) > HopCount(copies[i].packet)
    ensures BestAt(|copies| - 1, copies, key)
  {
    var before, n := copies[..|copies| - 1], |copies| - 1;
    forall j | 0 <= j < n && copies[j].key == key ensures HopCount(copies[j].packet) < HopCount(copies[n].packet) {
      assert before[j] == copies[j];
    }
  }

  /** One more copy: the best stays, or the newcomer replaces it by having strictly more hops. */
  lemma BestExtends(p: Packet, copies: seq<Copy>, key: Recent.Key)
    requires CopiesOk(copies) && copies != []
    requires CopiesOk(copies[..|copies| - 1]) && EarliestBest(p, copies[..|copies| - 1], key)
    ensures var last := copies[|copies| - 1];
      && WellFormed(p)
      && EarliestBest(if last.key == key && HopCount(last.packet) > HopCount(p) then last.packet else p, copies, key)
  {
    var before, last := copies[..|copies| - 1], copies[|copies| - 1];
    var i: nat :| i < |before| && BestAt(i, before, key) && before[i].packet == p;
    assert before[i] == copies[i];
    if last.key == key && HopCount(last.packet) > HopCount(p) {
      BestReplaced(i, copies, key);
    } else {
      BestStays(i, copies, key);
    }
  }

  /**
    For a key not remembered when its first copy arrives, and as long as that copy has not expired, the path cache
    holds the earliest copy with the most hops among all copies heard since, whatever else is heard in between.
   */
  lemma {:induction false} BestPathIsEarliestBest(s: Caches, copies: seq<Copy>, key: Recent.Key, ttl: real)
    requires CachesOk(s) && CopiesOk(copies) && copies != []
    requires key !in s.seen && copies[0].key == key && copies[|copies| - 1].at - ttl <= copies[0].at
    ensures var t := HeardAll(s, copies, ttl);
      && key in t.seen && t.seen[key] == copies[0].at
      && key in t.paths && EarliestBest(t.paths[key], copies, key)
    decreases |copies|
  {
    var n := |copies| - 1;
    var last := copies[n];
    var before := copies[..n];
    if n == 0 {
      assert before == [];
      HeardKeepsCaches(s, key, last.packet, last.at, ttl);
      assert BestAt(0, copies, key);
    } else {
      assert before[0] == copies[0] && before[n - 1] == copies[n - 1];
      BestPathIsEarliestBest(s, before, key, ttl);
      var mid := HeardAll(s, before, ttl);
      HeardAllKeepsCaches(s, before, ttl);
      HeardKeepsCaches(mid, last.key, last.packet, last.at, ttl);
      BestExtends(mid.paths[key], copies, key);
    }
  }

  // ---- contacts ----

  datatype Contact = Contact(pub: bytes, name: bytes)

  /** The contacts at each address, in the order in which they were first filed: a dict keeps it. */
  type Contacts = map<byte, seq<Contact>>

  function ContactsAt(contacts: Contacts, h: byte): seq<Contact> {
    if h in contacts then contacts[h] else []
  }

  /** known_pub_keys_for, in order. */
  function Keys(list: seq<Contact>): seq<bytes> {
    if list == [] then [] else [list[0].pub] + Keys(list[1..])
  }

  function NameIn(list: seq<Contact>, pub: bytes): Option<bytes> {
    if list == [] then None else if list[0].pub == pub then Some(list[0].name) else NameIn(list[1..], pub)
  }

  /** The dict assignment: a known key keeps its place, a new one goes last. */
  function Filed(list: seq<Contact>, pub: bytes, name: bytes): seq<Contact> {
    if list == [] then [Contact(pub, name)]
    else if list[0].pub == pub then [Contact(pub, name)] + list[1..]
    else [list[0]] + Filed(list[1..], pub, name)
  }

  lemma {:induction false} FiledIsAssignment(list: seq<Contact>, pub: bytes, name: bytes, other: bytes)
    ensures NameIn(Filed(list, pub, name), other) == if other == pub then Some(name) else NameIn(list, other)
    ensures Keys(Filed(list, pub, name)) == if NameIn(list, pub).Some? then Keys(list) else Keys(list) + [pub]
  {
    if list != [] && list[0].pub != pub {
      FiledIsAssignment(list[1..], pub, name, other);
      var filed := Filed(list[1..], pub, name);
      assert ([list[0]] + filed)[1..] == filed;
    } else if list != [] {
      assert ([Contact(pub, name)] + list[1..])[1..] == list[1..];
    }
  }

  /** Contacts are filed under their own address. Nothing says that key agreement works with their keys. */
  ghost predicate ContactsOk(contacts: Contacts) {
    forall h, p :: p in Keys(ContactsAt(contacts, h)) ==> HasAddress(p, h)
  }

  predicate HasAddress(pub: bytes, h: byte) {
    pub != [] && pub[0] == h
  }

  function ContactAdded(contacts: Contacts, pub: bytes, name: bytes): Contacts
    requires pub != []
  {
    contacts[pub[0] := Filed(ContactsAt(contacts, pub[0]), pub, name)]
  }

  lemma ContactsGrow(contacts: Contacts, pub: bytes, name: bytes)
    requires ContactsOk(contacts) && pub != []
    ensures ContactsOk(ContactAdded(contacts, pub, name))
  {
    var more := ContactAdded(contacts, pub, name);
    FiledIsAssignment(ContactsAt(contacts, pub[0]), pub, name, pub);
    forall h, p | p in Keys(ContactsAt(more, h)) ensures HasAddress(p, h) {
      assert p == pub || p in Keys(ContactsAt(contacts, h));
    }
  }

  // ---- echoes ----

  datatype Config = Config(ttl: real, directAttempts: int, floodAttempts: int,
                           /** reply text from the original text and the path it came over */
                           compose: (bytes, Packet) -> bytes)

  /** A background task that echoes a message. */
  datatype Echo = Echo(pub: bytes, key: Recent.Key, inbound: Packet, text: bytes)

  /** The delivery of an echo: directly along the reversed best path if it has one, then by flooding. */
  function EchoJob(host: Host, config: Config, e: Echo, best: Packet, timestamp: int): TxtJob
    requires HasSecret(host, e.pub) && WellFormed(best)
  {
    ReversePathInvolution(best.path, best.hashSize);
    TxtJob(host.c.ecdh(host.seed, e.pub).value, e.pub, host.pubKey, config.compose(e.text, best), timestamp,
           ReversePath(best.path, best.hashSize).value, best.hashSize, config.directAttempts, config.floodAttempts)
  }

  /** While timestamps fit 32 bits the encoder refuses no attempt of an echo, and every wire decodes at the receiver. */
  lemma EchoNeverFails(host: Host, config: Config, e: Echo, best: Packet, timestamp: int, acked: nat -> bool,
                       wires: seq<bytes>, r: Result<DeliveryResult, DeliveryError>)
    requires HasSecret(host, e.pub) && e.pub != [] && host.pubKey != [] && WellFormed(best)
    requires config.directAttempts >= 0 && config.floodAttempts > 0
    requires IsU32(timestamp) && IsU32(timestamp + (config.directAttempts + config.floodAttempts) / 4)
    requires Delivered(TxtShots(host.c, EchoJob(host, config, e, best, timestamp)), acked, wires, r)
    ensures r.Success? && (r.value.acked <==> acked(r.value.attempt)) && |wires| == r.value.attempt + 1
    ensures |EchoJob(host, config, e, best, timestamp).directPath| <= MAX_PATH_SIZE
  {
    var job := EchoJob(host, config, e, best, timestamp);
    ReversePathInvolution(best.path, best.hashSize);
    assert ValidJob(job);
    forall i | 0 <= i < |TxtShots(host.c, job)| ensures TxtShots(host.c, job)[i].Success? {
      assert i / 4 <= (config.directAttempts + config.floodAttempts) / 4;
      UsableRouteNeverFails(host.c, job, i);
    }
    RetrySchedule(TxtShots(host.c, job), acked, wires, r);
  }

  /** The PATH sent back over a received route: the route this packet took, with a random filler as its extra. */
  function PathAnswer(host: Host, l: LearnedPath, packet: Packet, random: bytes): Packet
    requires HasSecret(host, l.pub) && host.pubKey != [] && WellFormed(packet)
  {
    PathPacket(host.c, host.c.ecdh(host.seed, l.pub).value, l.msg.srcHash, host.pubKey, packet.path, packet.hashSize,
               0xFF, random, DIRECT, l.msg.path, l.msg.hashSize)
  }

  lemma PathAnswerIs(host: Host, l: LearnedPath, packet: Packet, random: bytes)
    requires HasSecret(host, l.pub) && host.pubKey != [] && WellFormed(packet)
    ensures PathAnswer(host, l, packet, random) ==
      Packet(DIRECT, TYPE_PATH, 0, None, l.msg.path,
             PathDatagram(host.c, host.c.ecdh(host.seed, l.pub).value, l.msg.srcHash, host.pubKey[0], packet.path,
                          packet.hashSize, 0xFF, random), l.msg.hashSize)
  {
  }

  /** It goes directly along the route that was received, with the route the packet took, sealed. */
  lemma PathAnswerOnAir(host: Host, l: LearnedPath, packet: Packet, random: bytes)
    requires HasSecret(host, l.pub) && host.pubKey != [] && WellFormed(packet)
    ensures var inner := [|packet.path| / packet.hashSize + 64 * (packet.hashSize - 1)] + packet.path + [0xFF] + random;
      PathAnswer(host, l, packet, random) ==
        Packet(DIRECT, TYPE_PATH, 0, None, l.msg.path,
               [l.msg.srcHash, host.pubKey[0]] + Seal(host.c, host.c.ecdh(host.seed, l.pub).value, inner),
               l.msg.hashSize)
  {
    PathAnswerIs(host, l, packet, random);
    PathBytes(host.c, host.c.ecdh(host.seed, l.pub).value, l.msg.srcHash, host.pubKey[0], packet.path, packet.hashSize,
              0xFF, random);
  }

  /** The peer reads in it the route its own packet took. */
  lemma PathAnswerReads(host: Host, l: LearnedPath, packet: Packet, random: bytes)
    requires HasSecret(host, l.pub) && host.pubKey != [] && WellFormed(packet)
    ensures var m := TryDecryptPath(host.c, PathAnswer(host, l, packet, random).payload,
                                    host.c.ecdh(host.seed, l.pub).value);
      m.Some? && m.value.path == packet.path && m.value.hashSize == packet.hashSize
  {
    PathRoundTrip(host.c, host.c.ecdh(host.seed, l.pub).value, l.msg.srcHash, PathHash(host.pubKey), packet.path,
                  packet.hashSize, 0xFF, random);
  }

  // ---- which outcomes a frame can have ----

  datatype State = State(
    contacts: Contacts, caches: Caches, advertTs: map<bytes, int>, published: seq<bytes>, tasks: seq<Echo>,
    acks: AckTable.State, history: seq<Recent.Call>)

  /**
    What came of a received frame; a message is lost when the search for its sender ends at a key without a shared
    secret.
   */
  datatype Outcome =
    | Ignored
    | Lost
    | Named(ad: Advert.Advertisement)
    | Acked(hash: bytes)
    | Learnt(l: LearnedPath)
    | Taken(h: Handled, isNew: bool)

  /** The keys a message to this host may be from: the contacts at its sender's address, in order. */
  function Candidates(host: Host, contacts: Contacts, p: Packet): seq<bytes>
    requires host.pubKey != []
  {
    if Addressed(host, p) && |p.payload| > 1 then Keys(ContactsAt(contacts, p.payload[1])) else []
  }

  ghost predicate AdvertPossible(host: Host, s: State, p: Packet, o: Outcome) {
    var ad := Advertised(host, p);
    if ad.None? || Stale(s.advertTs, ad.value) then o == Ignored else o == Named(ad.value)
  }

  ghost predicate AckPossible(p: Packet, o: Outcome) {
    match ParseAck(p.payload)
    case None => o == Ignored
    case Some(hash) => o == Acked(hash)
  }

  ghost predicate PathPossible(host: Host, s: State, p: Packet, o: Outcome)
    requires host.pubKey != []
  {
    match SearchPath(host, p.payload, Candidates(host, s.contacts, p))
    case Nobody => o == Ignored
    case Raised => o == Lost
    case Hit(l) => o == Learnt(l)
  }

  /**
    A message is taken from the first contact whose key opens it, as new iff no call with its key was accepted within
    the ttl.
   */
  ghost predicate TxtPossible(host: Host, config: Config, s: State, p: Packet, at: real, o: Outcome)
    requires host.pubKey != []
  {
    match SearchTxt(host, p.payload, Candidates(host, s.contacts, p))
    case Nobody => o == Ignored
    case Raised => o == Lost
    case Hit(h) =>
      OpenedTxt(host, p.payload, h);
      o == Taken(h, !Recent.AcceptedSince(s.history, AckKey(host, h), at - config.ttl))
  }

  /** Dispatch by payload type; telemetry requests and group texts are not modelled. */
  ghost predicate Possible(host: Host, config: Config, s: State, f: Frame, o: Outcome)
    requires host.pubKey != []
  {
    match Decode(f.wire)
    case Failure(_) => o == Ignored
    case Success(p) =>
      if p.payloadType == TYPE_ADVERT then AdvertPossible(host, s, p, o)
      else if p.payloadType == TYPE_ACK then AckPossible(p, o)
      else if p.payloadType == TYPE_PATH then PathPossible(host, s, p, o)
      else if p.payloadType == TYPE_TXT_MSG then TxtPossible(host, config, s, p, f.at, o)
      else o == Ignored
  }

  // ---- what each outcome does ----

  function AfterAdvert(s: State, ad: Advert.Advertisement): State
    requires ad.pubKey != []
  {
    s.(advertTs := s.advertTs[ad.pubKey := ad.timestamp],
       contacts := ContactAdded(s.contacts, ad.pubKey, ad.appData.name))
  }

  /** The encoder never refuses the answer to a PATH message. */
  lemma PathAnswerEncodes(host: Host, l: LearnedPath, p: Packet, random: bytes)
    requires host.pubKey != [] && WellFormed(p) && OpensPath(host, p.payload, l)
    ensures Encodable(PathAnswer(host, l, p, random))
  {
    ParsedRouteFits(host.c, p.payload, host.c.ecdh(host.seed, l.pub).value);
  }

  /** Only a flooded PATH message with a route is answered; no waiter is touched. */
  function AfterPath(host: Host, s: State, p: Packet, random: bytes, l: LearnedPath): State
    requires host.pubKey != [] && WellFormed(p) && OpensPath(host, p.payload, l)
  {
    if IsFlood(p) && l.msg.path != [] then
      PathAnswerEncodes(host, l, p, random);
      s.(published := s.published + [Wire(PathAnswer(host, l, p, random))])
    else s
  }

  /** A message judged under its key and remembered with its path, acknowledged with this wire, and echoed if new. */
  function Absorbed(s: State, ttl: real, h: Handled, call: Recent.Call, p: Packet, ack: bytes): State {
    s.(caches := Heard(s.caches, call.key, p, call.at, ttl),
       history := s.history + [call],
       published := s.published + [ack],
       tasks := s.tasks + if call.accepted then [Echo(h.pub, call.key, p, h.msg.text)] else [])
  }

  function AfterTxt(host: Host, config: Config, s: State, p: Packet, at: real, h: Handled, isNew: bool): State
    requires host.pubKey != [] && WellFormed(p) && OpensTxt(host, p.payload, h)
  {
    OpenedTxt(host, p.payload, h);
    PostAckReads(host, h, p);
    Absorbed(s, config.ttl, h, Recent.Call(AckKey(host, h), at, isNew), p, Wire(PostAck(host, h, p)))
  }

  /** What handling a PATH or a text message comes to: an outcome it can have, and the state that outcome leads to. */
  ghost predicate PathStep(host: Host, s: State, p: Packet, random: bytes, o: Outcome, t: State)
    requires host.pubKey != [] && WellFormed(p)
  {
    match o
    case Learnt(l) => PathPossible(host, s, p, o) && t == AfterPath(host, s, p, random, l)
    case _ => PathPossible(host, s, p, o) && t == s
  }

  ghost predicate TxtStep(host: Host, config: Config, s: State, p: Packet, at: real, o: Outcome, t: State)
    requires host.pubKey != [] && WellFormed(p)
  {
    match o
    case Taken(h, isNew) => TxtPossible(host, config, s, p, at, o) && t == AfterTxt(host, config, s, p, at, h, isNew)
    case _ => TxtPossible(host, config, s, p, at, o) && t == s
  }

  lemma AbsorbedIsStep(host: Host, config: Config, s: State, p: Packet, at: real, h: Handled, call: Recent.Call,
                       ack: bytes, t: State)
    requires host.pubKey != [] && WellFormed(p) && SearchTxt(host, p.payload, Candidates(host, s.contacts, p)) == Hit(h)
    requires OpensTxt(host, p.payload, h) && IsU32(h.msg.timestamp) && IsTxtType(h.msg.txtType)
    requires call ==
      Recent.Call(AckKey(host, h), at, !Recent.AcceptedSince(s.history, AckKey(host, h), at - config.ttl))
    requires Encodable(PostAck(host, h, p)) && ack == Wire(PostAck(host, h, p))
    requires t == Absorbed(s, config.ttl, h, call, p, ack)
    ensures TxtStep(host, config, s, p, at, Taken(h, call.accepted), t)
  {
  }

  ghost function After(host: Host, config: Config, s: State, f: Frame, o: Outcome): State
    requires host.pubKey != [] && Possible(host, config, s, f, o)
  {
    match Decode(f.wire)
    case Failure(_) => s
    case Success(p) =>
      EncodeOfDecode(f.wire);
      match o
      case Named(ad) => AfterAdvert(s, ad)
      case Acked(hash) => s.(acks := AckTable.After(s.acks, AckTable.Resolve(hash)))
      case Learnt(l) => AfterPath(host, s, p, f.random, l)
      case Taken(h, isNew) => AfterTxt(host, config, s, p, f.at, h, isNew)
      case _ => s
  }

  lemma PathStepIsStep(host: Host, config: Config, s: State, f: Frame, p: Packet, o: Outcome, t: State)
    requires host.pubKey != [] && Decode(f.wire) == Success(p) && p.payloadType == TYPE_PATH
    requires WellFormed(p) && PathStep(host, s, p, f.random, o, t)
    ensures Possible(host, config, s, f, o) && t == After(host, config, s, f, o)
  {
  }

  lemma TxtStepIsStep(host: Host, config: Config, s: State, f: Frame, p: Packet, o: Outcome, t: State)
    requires host.pubKey != [] && Decode(f.wire) == Success(p) && p.payloadType == TYPE_TXT_MSG
    requires WellFormed(p) && TxtStep(host, config, s, p, f.at, o, t)
    ensures Possible(host, config, s, f, o) && t == After(host, config, s, f, o)
  {
  }

  // ---- runs ----

  /** The outcomes are possible ones, frame after frame. */
  ghost predicate Follows(host: Host, config: Config, s: State, frames: seq<Frame>, outcomes: seq<Outcome>)
    requires host.pubKey != []
    decreases |frames|, 0
  {
    && |outcomes| == |frames|
    && (frames == []
        || var n := |frames| - 1;
           && Follows(host, config, s, frames[..n], outcomes[..n])
           && Possible(host, config, Reach(host, config, s, frames[..n], outcomes[..n]), frames[n], outcomes[n]))
  }

  /** The state after a run. */
  ghost function Reach(host: Host, config: Config, s: State, frames: seq<Frame>, outcomes: seq<Outcome>): State
    requires host.pubKey != [] && Follows(host, config, s, frames, outcomes)
    decreases |frames|, 1
  {
    if frames == [] then s
    else
      var n := |frames| - 1;
      After(host, config, Reach(host, config, s, frames[..n], outcomes[..n]), frames[n], outcomes[n])
  }

  lemma FollowsMore(host: Host, config: Config, s: State, frames: seq<Frame>, outcomes: seq<Outcome>, f: Frame,
                    o: Outcome)
    requires host.pubKey != [] && Follows(host, config, s, frames, outcomes)
    requires Possible(host, config, Reach(host, config, s, frames, outcomes), f, o)
    ensures Follows(host, config, s, frames + [f], outcomes + [o])
    ensures Reach(host, config, s, frames + [f], outcomes + [o])
         == After(host, config, Reach(host, config, s, frames, outcomes), f, o)
  {
    assert (frames + [f])[..|frames|] == frames && (outcomes + [o])[..|frames|] == outcomes;
  }

  /** Within a run each outcome is possible where the run has got to. */
  lemma {:induction false} FollowsAt(host: Host, config: Config, s: State, frames: seq<Frame>, outcomes: seq<Outcome>,
                                     i: nat)
    requires host.pubKey != [] && Follows(host, config, s, frames, outcomes) && i < |frames|
    ensures Follows(host, config, s, frames[..i], outcomes[..i])
    ensures Possible(host, config, Reach(host, config, s, frames[..i], outcomes[..i]), frames[i], outcomes[i])
    decreases |frames|
  {
    var n := |frames| - 1;
    if i < n {
      FollowsAt(host, config, s, frames[..n], outcomes[..n], i);
      assert frames[..n][..i] == frames[..i] && outcomes[..n][..i] == outcomes[..i];
    }
  }

  // ---- what a run publishes, remembers and starts ----

  /** What a frame is answered with. */
  function AnswerTo(host: Host, f: Frame, o: Outcome): seq<bytes> {
    match Decode(f.wire)
    case Failure(_) => []
    case Success(p) =>
      EncodeOfDecode(f.wire);
      if host.pubKey == [] then []
      else
        match o
        case Learnt(l) =>
          if OpensPath(host, p.payload, l) && IsFlood(p) && l.msg.path != [] then
            PathAnswerEncodes(host, l, p, f.random);
            [Wire(PathAnswer(host, l, p, f.random))]
          else []
        case Taken(h, _) =>
          if OpensTxt(host, p.payload, h) then PostAckReads(host, h, p); [Wire(PostAck(host, h, p))] else []
        case _ => []
  }

  /** What a run adds: answers published, copies of messages heard, calls of remember_message, and echoes started. */
  datatype Gain = Gain(answers: seq<bytes>, copies: seq<Copy>, calls: seq<Recent.Call>, echoes: seq<Echo>)

  /** A message taken is one copy, one call, and an echo if it is new. */
  function GainOf(host: Host, f: Frame, o: Outcome): Gain {
    var answers := AnswerTo(host, f, o);
    if o.Taken? && IsU32(o.h.msg.timestamp) && IsTxtType(o.h.msg.txtType) && Decode(f.wire).Success? then
      var key, p := AckKey(host, o.h), Decode(f.wire).value;
      Gain(answers, [Copy(key, p, f.at)], [Recent.Call(key, f.at, o.isNew)],
           if o.isNew then [Echo(o.h.pub, key, p, o.h.msg.text)] else [])
    else Gain(answers, [], [], [])
  }

  function Gains(host: Host, frames: seq<Frame>, outcomes: seq<Outcome>): Gain
    requires |frames| == |outcomes|
    decreases |frames|
  {
    if frames == [] then Gain([], [], [], [])
    else
      var n := |frames| - 1;
      Plus(Gains(host, frames[..n], outcomes[..n]), GainOf(host, frames[n], outcomes[n]))
  }

  function Plus(a: Gain, b: Gain): Gain {
    Gain(a.answers + b.answers, a.copies + b.copies, a.calls + b.calls, a.echoes + b.echoes)
  }

  /** t is s with this gain. */
  ghost predicate AddsUp(ttl: real, s: State, g: Gain, t: State) {
    && t.published == s.published + g.answers
    && t.caches == HeardAll(s.caches, g.copies, ttl)
    && t.history == s.history + g.calls
    && t.tasks == s.tasks + g.echoes
  }

  lemma TakenAdds(host: Host, config: Config, s: State, f: Frame, o: Outcome)
    requires host.pubKey != [] && Possible(host, config, s, f, o) && o.Taken?
    ensures AddsUp(config.ttl, s, GainOf(host, f, o), After(host, config, s, f, o))
  {
    var p := Decode(f.wire).value;
    OpenedTxt(host, p.payload, o.h);
    assert HeardAll(s.caches, [], config.ttl) == s.caches;
    HeardOneMore(s.caches, [], Copy(AckKey(host, o.h), p, f.at), config.ttl);
    assert [] + GainOf(host, f, o).copies == GainOf(host, f, o).copies;
  }

  lemma NothingAdds(host: Host, config: Config, s: State, f: Frame, o: Outcome)
    requires host.pubKey != [] && Possible(host, config, s, f, o) && !o.Taken?
    ensures AddsUp(config.ttl, s, GainOf(host, f, o), After(host, config, s, f, o))
  {
  }

  lemma {:induction false} HeardOneMore(s: Caches, copies: seq<Copy>, copy: Copy, ttl: real)
    ensures HeardAll(s, copies + [copy], ttl) == Heard(HeardAll(s, copies, ttl), copy.key, copy.packet, copy.at, ttl)
  {
    assert (copies + [copy])[..|copies|] == copies;
  }

  lemma HeardAppend(s: Caches, copies: seq<Copy>, more: seq<Copy>, ttl: real)
    requires |more| <= 1
    ensures HeardAll(s, copies + more, ttl) == HeardAll(HeardAll(s, copies, ttl), more, ttl)
  {
    if more == [] {
      assert copies + more == copies;
    } else {
      assert more == [more[0]] && more[..0] == [];
      HeardOneMore(s, copies, more[0], ttl);
    }
  }

  lemma OneMore(ttl: real, s: State, a: Gain, mid: State, b: Gain, t: State)
    requires AddsUp(ttl, s, a, mid) && AddsUp(ttl, mid, b, t) && |b.copies| <= 1
    ensures AddsUp(ttl, s, Plus(a, b), t)
  {
    HeardAppend(s.caches, a.copies, b.copies, ttl);
  }

  /**
    Over a whole run: every message that opened is acknowledged exactly once, every flooded PATH with a route is
    answered once, in order, and nothing else is published; every new message starts exactly one echo.
   */
  lemma {:induction false} RunAddsUp(host: Host, config: Config, s: State, frames: seq<Frame>, outcomes: seq<Outcome>)
    requires host.pubKey != [] && Follows(host, config, s, frames, outcomes)
    ensures AddsUp(config.ttl, s, Gains(host, frames, outcomes), Reach(host, config, s, frames, outcomes))
    decreases |frames|
  {
    if frames != [] {
      var n := |frames| - 1;
      var mid := Reach(host, config, s, frames[..n], outcomes[..n]);
      RunAddsUp(host, config, s, frames[..n], outcomes[..n]);
      if outcomes[n].Taken? {
        TakenAdds(host, config, mid, frames[n], outcomes[n]);
      } else {
        NothingAdds(host, config, mid, frames[n], outcomes[n]);
      }
      OneMore(config.ttl, s, Gains(host, frames[..n], outcomes[..n]), mid, GainOf(host, frames[n], outcomes[n]),
              After(host, config, mid, frames[n], outcomes[n]));
    }
  }

  /**
    In any run a message taken is new exactly when nothing from its address with its hash was accepted within the ttl.
    What is hashed is timestamp, attempt and type bits, text, and the sender's key.
   */
  lemma FreshExactly(host: Host, config: Config, s: State, frames: seq<Frame>, outcomes: seq<Outcome>, i: nat)
    requires host.pubKey != [] && Follows(host, config, s, frames, outcomes) && i < |frames| && outcomes[i].Taken?
    ensures var h := outcomes[i].h;
      && Decode(frames[i].wire).Success? && |Decode(frames[i].wire).value.payload| > 1
      && IsU32(h.msg.timestamp) && IsTxtType(h.msg.txtType)
      && var m := h.msg;
      var key := (Decode(frames[i].wire).value.payload[1],
                  host.c.sha256(Le4(m.timestamp) + [m.attempt % 4 + 4 * m.txtType] + m.text + h.pub)[..4]);
      (outcomes[i].isNew <==>
         !Recent.AcceptedSince(s.history + Gains(host, frames[..i], outcomes[..i]).calls, key,
                               frames[i].at - config.ttl))
  {
    FreshByKey(host, config, s, frames, outcomes, i);
    var h := outcomes[i].h;
    AckKeyBytes(host, h);
    var calls := s.history + Gains(host, frames[..i], outcomes[..i]).calls;
    SameQuestion(calls, AckKey(host, h), (Decode(frames[i].wire).value.payload[1],
      host.c.sha256(Le4(h.msg.timestamp) + [h.msg.attempt % 4 + 4 * h.msg.txtType] + h.msg.text + h.pub)[..4]),
      frames[i].at - config.ttl);
  }

  lemma SameQuestion(calls: seq<Recent.Call>, a: Recent.Key, b: Recent.Key, cutoff: real)
    requires a == b
    ensures Recent.AcceptedSince(calls, a, cutoff) <==> Recent.AcceptedSince(calls, b, cutoff)
  {
  }

  lemma FreshByKey(host: Host, config: Config, s: State, frames: seq<Frame>, outcomes: seq<Outcome>, i: nat)
    requires host.pubKey != [] && Follows(host, config, s, frames, outcomes) && i < |frames| && outcomes[i].Taken?
    ensures var h := outcomes[i].h;
      && Decode(frames[i].wire).Success? && |Decode(frames[i].wire).value.payload| > 1
      && h.msg.srcHash == Decode(frames[i].wire).value.payload[1]
      && IsU32(h.msg.timestamp) && IsTxtType(h.msg.txtType)
      && (outcomes[i].isNew <==>
            !Recent.AcceptedSince(s.history + Gains(host, frames[..i], outcomes[..i]).calls, AckKey(host, h),
                                  frames[i].at - config.ttl))
  {
    FollowsAt(host, config, s, frames, outcomes, i);
    RunAddsUp(host, config, s, frames[..i], outcomes[..i]);
    OpenedTxt(host, Decode(frames[i].wire).value.payload, outcomes[i].h);
  }

  /** The calls that a run adds carry that key, and so do the copies heard and the echoes started. */
  lemma GainKeys(host: Host, f: Frame, o: Outcome)
    requires Decode(f.wire).Success? && o.Taken? && IsU32(o.h.msg.timestamp) && IsTxtType(o.h.msg.txtType)
    ensures var g, p, m := GainOf(host, f, o), Decode(f.wire).value, o.h.msg;
      var key := (m.srcHash, host.c.sha256(Le4(m.timestamp) + [m.attempt % 4 + 4 * m.txtType] + m.text + o.h.pub)[..4]);
      && g.calls == [Recent.Call(key, f.at, o.isNew)] && g.copies == [Copy(key, p, f.at)]
      && g.echoes == if o.isNew then [Echo(o.h.pub, key, p, m.text)] else []
  {
    AckKeyBytes(host, o.h);
  }

  // ---- who is named, and what is taken ----

  /**
    An advert names a node exactly when it decodes, is not the host's own, is signed by its key, and is not older than
    the last one taken.
   */
  lemma NamedExactly(host: Host, config: Config, s: State, f: Frame, o: Outcome, ad: Advert.Advertisement)
    requires host.pubKey != [] && Possible(host, config, s, f, o)
    requires Decode(f.wire).Success? && Decode(f.wire).value.payloadType == TYPE_ADVERT
    ensures o == Named(ad) <==>
      && Advert.DecodeAdvert(Decode(f.wire).value.payload) == Success(ad) && ad.pubKey != host.pubKey
      && host.c.verify(ad.pubKey, ad.signature, ad.pubKey + Le4(ad.timestamp) + ad.rawAppData)
      && (ad.pubKey in s.advertTs ==> ad.timestamp >= s.advertTs[ad.pubKey])
  {
    AdvertisedExactly(host, Decode(f.wire).value, ad);
    assert AdvertPossible(host, s, Decode(f.wire).value, o);
  }

  /** The candidates for a message to this host are the contacts filed under its second byte. */
  lemma CandidatesExactly(host: Host, contacts: Contacts, p: Packet)
    requires host.pubKey != []
    ensures Candidates(host, contacts, p) ==
      if |p.payload| > 1 && p.payload[0] == host.pubKey[0] && p.payload[1] in contacts then Keys(contacts[p.payload[1]])
      else []
  {
  }

  /** An ACK is taken exactly when it is long enough, for its first four bytes. */
  lemma AckedExactly(host: Host, config: Config, s: State, f: Frame, o: Outcome, hash: bytes)
    requires host.pubKey != [] && Possible(host, config, s, f, o)
    requires Decode(f.wire).Success? && Decode(f.wire).value.payloadType == TYPE_ACK
    ensures var payload := Decode(f.wire).value.payload;
      o == Acked(hash) <==> |payload| >= 4 && hash == payload[..4]
  {
    assert AckPossible(Decode(f.wire).value, o);
  }

  /** A text message for this host. */
  predicate IsMessage(host: Host, f: Frame) {
    Decode(f.wire).Success? && Decode(f.wire).value.payloadType == TYPE_TXT_MSG
  }

  /**
    A message that some contact's key opens is taken, and so acknowledged once, unless it is lost; and it is lost
    exactly when a contact at its sender's address without a shared secret was filed before all whose key opens it.
   */
  lemma EveryMessageIsTaken(host: Host, config: Config, s: State, frames: seq<Frame>, outcomes: seq<Outcome>, i: nat,
                            pub: bytes)
    requires host.pubKey != [] && Follows(host, config, s, frames, outcomes) && i < |frames|
    requires IsMessage(host, frames[i])
    requires Follows(host, config, s, frames[..i], outcomes[..i])
    requires var p := Decode(frames[i].wire).value;
      var candidates := Candidates(host, Reach(host, config, s, frames[..i], outcomes[..i]).contacts, p);
      pub in candidates && CanOpenTxt(host, p.payload, pub)
    ensures var p := Decode(frames[i].wire).value;
      var candidates := Candidates(host, Reach(host, config, s, frames[..i], outcomes[..i]).contacts, p);
      && (outcomes[i].Lost? <==> exists k :: BadAt(host, p.payload, candidates, k))
      && (!outcomes[i].Lost? ==>
            outcomes[i].Taken? && OpensTxt(host, p.payload, outcomes[i].h)
            && |AnswerTo(host, frames[i], outcomes[i])| == 1)
  {
    FollowsAt(host, config, s, frames, outcomes, i);
    var mid, p := Reach(host, config, s, frames[..i], outcomes[..i]), Decode(frames[i].wire).value;
    LostExactly(host, p.payload, Candidates(host, mid.contacts, p));
    SearchTxtEnds(host, p.payload, Candidates(host, mid.contacts, p));
    assert TxtPossible(host, config, mid, p, frames[i].at, outcomes[i]);
  }

  // ---- the best path, over runs ----

  ghost predicate InTime(frames: seq<Frame>) {
    forall i, j :: 0 <= i < j < |frames| ==> frames[i].at <= frames[j].at
  }

  lemma {:induction false} RunCopiesOk(host: Host, frames: seq<Frame>, outcomes: seq<Outcome>)
    requires |frames| == |outcomes| && InTime(frames)
    ensures var copies := Gains(host, frames, outcomes).copies;
      && CopiesOk(copies)
      && (forall c :: c in copies ==> frames != [] && c.at <= frames[|frames| - 1].at)
    decreases |frames|
  {
    if frames != [] {
      var n := |frames| - 1;
      RunCopiesOk(host, frames[..n], outcomes[..n]);
      EncodeOfWire(frames[n].wire);
      var before, last := Gains(host, frames[..n], outcomes[..n]).copies, GainOf(host, frames[n], outcomes[n]).copies;
      forall c | c in before ensures c.at <= frames[n].at {
        assert frames[..n][n - 1] == frames[n - 1];
      }
      CopiesAppend(before, last, frames[n].at);
    }
  }

  lemma EncodeOfWire(wire: bytes)
    ensures Decode(wire).Success? ==> WellFormed(Decode(wire).value)
  {
    if Decode(wire).Success? {
      EncodeOfDecode(wire);
    }
  }

  lemma CopiesAppend(before: seq<Copy>, last: seq<Copy>, at: real)
    requires CopiesOk(before) && |last| <= 1 && (forall c :: c in before ==> c.at <= at)
    requires forall c :: c in last ==> WellFormed(c.packet) && c.at == at
    ensures CopiesOk(before + last) && forall c :: c in before + last ==> c.at <= at
  {
    var all := before + last;
    forall i | 0 <= i < |all| ensures WellFormed(all[i].packet) && all[i].at <= at {
      assert i < |before| ==> all[i] in before;
      assert i >= |before| ==> all[i] in last;
    }
    forall i, j | 0 <= i < j < |all| ensures all[i].at <= all[j].at {
      assert all[i] in before;
      if j == |before| {
        assert all[j] in last;
      }
    }
  }

  /**
    In any run from where a key was not remembered, beginning with a copy of a message with that key, and until that
    copy expires: the path remembered for it is that of the earliest copy received with the most hops.
   */
  lemma BestPathOfRun(host: Host, config: Config, s: State, frames: seq<Frame>, outcomes: seq<Outcome>, key: Recent.Key)
    requires host.pubKey != [] && Follows(host, config, s, frames, outcomes) && InTime(frames) && CachesOk(s.caches)
    requires var copies := Gains(host, frames, outcomes).copies;
      && copies != [] && copies[0].key == key && key !in s.caches.seen
      && copies[|copies| - 1].at - config.ttl <= copies[0].at
    ensures var t := Reach(host, config, s, frames, outcomes);
      key in t.caches.paths && EarliestBest(t.caches.paths[key], Gains(host, frames, outcomes).copies, key)
  {
    RunCopiesOk(host, frames, outcomes);
    RunAddsUp(host, config, s, frames, outcomes);
    BestPathIsEarliestBest(s.caches, Gains(host, frames, outcomes).copies, key, config.ttl);
  }

  // ---- which acknowledgements of an echo are heard ----

  /** An attempt of an echo, to a peer that shares a secret with this host and can read it. */
  ghost predicate Echoed(host: Host, j: TxtJob, i: nat, peerSeed: bytes) {
    j.srcPubKey == host.pubKey && Linked(host.c, j, i, host.seed, peerSeed) && NulFree(j.text)
  }

  /** Every attempt of an echo along a remembered path is one, to a peer that derives the same secret. */
  lemma EchoIsEchoed(host: Host, config: Config, e: Echo, best: Packet, timestamp: int, i: nat, peerSeed: bytes)
    requires HasSecret(host, e.pub) && e.pub != [] && host.pubKey != [] && WellFormed(best)
    requires config.directAttempts >= 0 && config.floodAttempts >= 0 && IsU32(timestamp) && IsU32(timestamp + i / 4)
    requires i < |TxtAttempts(EchoJob(host, config, e, best, timestamp))|
    requires Agree(host.c, host.seed, host.pubKey, peerSeed, e.pub) && NulFree(config.compose(e.text, best))
    ensures Echoed(host, EchoJob(host, config, e, best, timestamp), i, peerSeed)
  {
    ReversePathInvolution(best.path, best.hashSize);
    UsableRouteNeverFails(host.c, EchoJob(host, config, e, best, timestamp), i);
  }

  lemma EchoReadIs(host: Host, config: Config, e: Echo, best: Packet, timestamp: int, t: int, attempt: int)
    requires HasSecret(host, e.pub) && e.pub != [] && host.pubKey != [] && WellFormed(best)
    requires NulFree(config.compose(e.text, best))
    ensures TxtRead(EchoJob(host, config, e, best, timestamp), t, attempt) ==
      TxtMsg(e.pub[0], host.pubKey[0], t, attempt, config.compose(e.text, best), 0)
  {
    CutNulIdentity(config.compose(e.text, best));
  }

  /** However attempt i of an echo is relayed, the peer reads in it the reply composed for the best path. */
  lemma EchoReads(host: Host, config: Config, e: Echo, best: Packet, timestamp: int, i: nat, peerSeed: bytes,
                  got: Packet)
    requires HasSecret(host, e.pub) && e.pub != [] && host.pubKey != [] && WellFormed(best)
    requires NulFree(config.compose(e.text, best))
    requires Echoed(host, EchoJob(host, config, e, best, timestamp), i, peerSeed)
    requires Arrives(TxtShots(host.c, EchoJob(host, config, e, best, timestamp))[i].value.wire, got)
    ensures TryDecryptTxt(host.c, got.payload, host.c.ecdh(peerSeed, host.pubKey).value) ==
      Some(TxtMsg(e.pub[0], host.pubKey[0], timestamp + i / 4, i % 4, config.compose(e.text, best), 0))
  {
    var j := EchoJob(host, config, e, best, timestamp);
    var m := TxtMsg(e.pub[0], host.pubKey[0], timestamp + i / 4, i % 4, config.compose(e.text, best), 0);
    EchoReadIs(host, config, e, best, timestamp, timestamp + i / 4, i % 4);
    AttemptReadAs(host.c, j, i, host.seed, peerSeed, got, host.pubKey, m);
  }

  /** The i-th packet of an echo goes along the best path reversed, hop by hop, or floods. */
  lemma EchoRoute(host: Host, config: Config, e: Echo, best: Packet, timestamp: int, acked: nat -> bool,
                  wires: seq<bytes>, r: Result<DeliveryResult, DeliveryError>, i: nat)
    requires HasSecret(host, e.pub) && e.pub != [] && host.pubKey != [] && WellFormed(best)
    requires config.directAttempts >= 0 && config.floodAttempts > 0
    requires IsU32(timestamp) && IsU32(timestamp + (config.directAttempts + config.floodAttempts) / 4)
    requires Delivered(TxtShots(host.c, EchoJob(host, config, e, best, timestamp)), acked, wires, r) && i < |wires|
    ensures Decode(wires[i]).Success?
    ensures var p := Decode(wires[i]).value;
      if best.path != [] && i < config.directAttempts then
        && p.routeType == DIRECT && p.hashSize == best.hashSize && RouteFits(p.path, best.hashSize)
        && Hops(p.path, best.hashSize) == Reversed(Hops(best.path, best.hashSize))
      else p.routeType == FLOOD && p.path == []
    ensures |wires| <= (if best.path == [] then 0 else config.directAttempts) + config.floodAttempts
    ensures (forall k :: !acked(k)) ==>
      |wires| == (if best.path == [] then 0 else config.directAttempts) + config.floodAttempts
  {
    var j := EchoJob(host, config, e, best, timestamp);
    EchoNeverFails(host, config, e, best, timestamp, acked, wires, r);
    ReversePathInvolution(best.path, best.hashSize);
    ShotDecodes(host.c, j, i);
  }

  /**
    In any run from where a message was not remembered, beginning with a copy of it, and until that copy expires: every
    direct packet of its echo goes back along the hops of the earliest copy received with the most hops.
   */
  lemma EchoTakesBestPath(host: Host, config: Config, s: State, frames: seq<Frame>, outcomes: seq<Outcome>, e: Echo,
                          timestamp: int, acked: nat -> bool, wires: seq<bytes>,
                          r: Result<DeliveryResult, DeliveryError>)
    returns (b: nat)
    requires host.pubKey != [] && Follows(host, config, s, frames, outcomes) && InTime(frames) && CachesOk(s.caches)
    requires var copies := Gains(host, frames, outcomes).copies;
      && copies != [] && copies[0].key == e.key && e.key !in s.caches.seen
      && copies[|copies| - 1].at - config.ttl <= copies[0].at
    requires HasSecret(host, e.pub) && e.pub != [] && config.directAttempts >= 0 && config.floodAttempts > 0
    requires IsU32(timestamp) && IsU32(timestamp + (config.directAttempts + config.floodAttempts) / 4)
    requires var paths := Reach(host, config, s, frames, outcomes).caches.paths;
      var best := if e.key in paths then paths[e.key] else e.inbound;
      WellFormed(best) && Delivered(TxtShots(host.c, EchoJob(host, config, e, best, timestamp)), acked, wires, r)
    ensures var copies := Gains(host, frames, outcomes).copies;
      && CopiesOk(copies) && b < |copies| && copies[b].key == e.key
      && (forall k :: 0 <= k < |copies| && copies[k].key == e.key ==> HopsOf(copies, k) <= HopsOf(copies, b))
      && (forall k :: 0 <= k < b && copies[k].key == e.key ==> HopsOf(copies, k) < HopsOf(copies, b))
      && var best := copies[b].packet;
      forall i :: 0 <= i < |wires| ==> TakesRoute(wires[i], best, best.path != [] && i < config.directAttempts)
  {
    BestPathOfRun(host, config, s, frames, outcomes, e.key);
    RunCopiesOk(host, frames, outcomes);
    var copies := Gains(host, frames, outcomes).copies;
    var best := Reach(host, config, s, frames, outcomes).caches.paths[e.key];
    b := MostHops(copies, e.key, best);
    forall i | 0 <= i < |wires| ensures TakesRoute(wires[i], best, best.path != [] && i < config.directAttempts) {
      EchoRoute(host, config, e, best, timestamp, acked, wires, r, i);
    }
  }

  lemma MostHops(copies: seq<Copy>, key: Recent.Key, best: Packet) returns (b: nat)
    requires CopiesOk(copies) && EarliestBest(best, copies, key)
    ensures b < |copies| && copies[b].key == key && copies[b].packet == best
    ensures forall k :: 0 <= k < |copies| && copies[k].key == key ==> HopsOf(copies, k) <= HopsOf(copies, b)
    ensures forall k :: 0 <= k < b && copies[k].key == key ==> HopsOf(copies, k) < HopsOf(copies, b)
  {
    b :| b < |copies| && BestAt(b, copies, key) && copies[b].packet == best;
    forall k | 0 <= k < |copies| ensures HopsOf(copies, k) == HopCount(copies[k].packet) {
      HopCounts(copies[k].packet.path, copies[k].packet.hashSize);
    }
  }

  /** How many hops the k-th copy came over. */
  ghost function HopsOf(copies: seq<Copy>, k: nat): int
    requires CopiesOk(copies) && k < |copies|
  {
    |Hops(copies[k].packet.path, copies[k].packet.hashSize)|
  }

  /** These bytes are a packet directly back along this one's hops, or else a flood. */
  ghost predicate TakesRoute(wire: bytes, best: Packet, direct: bool)
    requires WellFormed(best)
  {
    && Decode(wire).Success?
    && var p := Decode(wire).value;
    if direct then
      && p.routeType == DIRECT && p.hashSize == best.hashSize && RouteFits(p.path, best.hashSize)
      && Hops(p.path, best.hashSize) == Reversed(Hops(best.path, best.hashSize))
    else p.routeType == FLOOD && p.path == []
  }

  /** The acknowledgement the peer returns for that attempt, of which this packet reached it. */
  ghost function PeerReply(host: Host, j: TxtJob, i: nat, peerSeed: bytes, got: Packet): Packet
    requires Echoed(host, j, i, peerSeed) && Arrives(TxtShots(host.c, j)[i].value.wire, got)
  {
    AckAgreement(host.c, j, i, host.seed, peerSeed, got, got);
    var secret := host.c.ecdh(peerSeed, j.srcPubKey).value;
    var m := TryDecryptTxt(host.c, got.payload, secret).value;
    AckReply(host.c, secret, m.srcHash, j.destPubKey, TxtShots(host.c, j)[i].value.ackHash, got)
  }

  /**
    However it is relayed, it carries the awaited hash: as a plain ACK for a direct attempt, in a PATH for a flooded
    one.
   */
  lemma PeerReplyKind(host: Host, j: TxtJob, i: nat, peerSeed: bytes, got: Packet, back: Packet)
    requires Echoed(host, j, i, peerSeed) && Arrives(TxtShots(host.c, j)[i].value.wire, got)
    requires Relayed(PeerReply(host, j, i, peerSeed, got), back)
    ensures AckCarried(host.c, back, j.secret) == Some(TxtShots(host.c, j)[i].value.ackHash)
    ensures back.payloadType == if TxtAttempts(j)[i].routeType == DIRECT then TYPE_ACK else TYPE_PATH
  {
    AckAgreement(host.c, j, i, host.seed, peerSeed, got, back);
    AttemptFloods(host.c, j, i, host.seed, peerSeed, got);
    AckReplyKind(host.c, j.secret, PathHash(j.srcPubKey), j.destPubKey, TxtShots(host.c, j)[i].value.ackHash, got);
  }

  lemma AckFrameResolves(host: Host, config: Config, s: State, f: Frame, o: Outcome, back: Packet, hash: bytes)
    requires host.pubKey != [] && Possible(host, config, s, f, o)
    requires Decode(f.wire) == Success(back) && back.payloadType == TYPE_ACK && ParseAck(back.payload) == Some(hash)
    ensures After(host, config, s, f, o).acks == AckTable.After(s.acks, AckTable.Resolve(hash))
  {
    assert o == Acked(hash);
  }

  lemma PathFrameResolvesNone(host: Host, config: Config, s: State, f: Frame, o: Outcome, back: Packet)
    requires host.pubKey != [] && Possible(host, config, s, f, o)
    requires Decode(f.wire) == Success(back) && back.payloadType == TYPE_PATH
    ensures After(host, config, s, f, o).acks == s.acks
  {
    assert PathPossible(host, s, back, o);
  }

  /**
    An acknowledgement of an echo confirms it exactly when the attempt went out directly, whatever repeaters the
    attempt and its acknowledgement passed: the peer then answers with a plain ACK, which resolves the wait. A flooded
    attempt is answered with a PATH, whose bundled ACK nobody here reads, although it carries the very hash awaited.
   */
  lemma EchoConfirmedExactly(host: Host, config: Config, s: State, j: TxtJob, i: nat, peerSeed: bytes, got: Packet,
                             back: Packet, f: Frame, o: Outcome, id: nat)
    requires host.pubKey != [] && Echoed(host, j, i, peerSeed) && Arrives(TxtShots(host.c, j)[i].value.wire, got)
    requires Relayed(PeerReply(host, j, i, peerSeed, got), back) && Decode(f.wire) == Success(back)
    requires Possible(host, config, s, f, o) && AckTable.Inv(s.acks)
    requires id in s.acks.waits
    requires s.acks.waits[id] == AckTable.Wait(TxtShots(host.c, j)[i].value.ackHash, AckTable.Pending)
    ensures var hash := TxtShots(host.c, j)[i].value.ackHash;
      var t := After(host, config, s, f, o);
      && AckCarried(host.c, back, j.secret) == Some(hash)
      && t.acks == (if TxtAttempts(j)[i].routeType == DIRECT then AckTable.After(s.acks, AckTable.Resolve(hash))
                    else s.acks)
      && id in t.acks.waits && (t.acks.waits[id].phase == AckTable.Resolved <==> TxtAttempts(j)[i].routeType == DIRECT)
  {
    PeerReplyKind(host, j, i, peerSeed, got, back);
    var hash := TxtShots(host.c, j)[i].value.ackHash;
    if TxtAttempts(j)[i].routeType == DIRECT {
      AckFrameResolves(host, config, s, f, o, back, hash);
      AckTable.ResolveWakesAll(s.acks, hash);
    } else {
      PathFrameResolvesNone(host, config, s, f, o, back);
    }
  }
}
