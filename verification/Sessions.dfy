/**
  The value parts of the room server's state (protocol.py): sessions, routes, roles, and what a packet does to them.
 */
module Sessions {
  import opened Bytes
  import opened Wrappers
  import opened Packets
  import opened Crypto
  import opened Messaging
  import opened Inbound
  import Room

  /** How to reach a client and what role it holds. A client has one session for ever, so its key names it. */
  datatype Session = Session(name: bytes, isAdmin: bool, routeType: int, path: bytes, hashSize: int)

  type SessionMap = map<bytes, Session>
  type HashIndex = map<byte, set<bytes>>

  /** DIRECT exactly when a path is known, and then a path the packet encoder takes. */
  predicate RouteOk(s: Session) {
    && (s.routeType == DIRECT <==> s.path != [])
    && (s.routeType == DIRECT || s.routeType == FLOOD)
    && RouteFits(s.path, s.hashSize)
  }

  // ---- return routes ----

  datatype Route = Route(routeType: int, path: bytes, hashSize: int)

  /** _return_route: the observed path reversed, or flood when none was observed. */
  function ReturnRoute(p: Packet): Route
    requires WellFormed(p)
  {
    if HashCount(p) != 0 && p.path != [] then Route(DIRECT, ReversePath(p.path, p.hashSize).value, p.hashSize)
    else Route(FLOOD, [], 1)
  }

  /** A return route is encodable and decodable, and its hops are the observed ones backwards. */
  lemma ReturnRouteOk(p: Packet)
    requires WellFormed(p)
    ensures var r := ReturnRoute(p);
      && RouteFits(r.path, r.hashSize) && |r.path| <= MAX_PATH_SIZE
      && (r.routeType == DIRECT <==> r.path != []) && (r.routeType == DIRECT || r.routeType == FLOOD)
      && (r.routeType == DIRECT <==> p.path != [])
      && (p.path != [] ==> r.hashSize == p.hashSize && Hops(r.path, r.hashSize) == Reversed(Hops(p.path, p.hashSize)))
  {
    ReversePathInvolution(p.path, p.hashSize);
    HopsOf(|p.path|, p.hashSize);
  }

  // ---- passwords ----

  /** Whether a password admits, and as administrator; an unset password admits nobody. */
  function Classify(password: bytes, admin: bytes, guest: bytes): Option<bool> {
    if admin != [] && password == admin then Some(true)
    else if guest != [] && password == guest then Some(false)
    else None
  }

  // ---- sessions ----

  /** A client's advertised name, or else a nickname made from its key. */
  function NameOf(names: map<bytes, bytes>, nickname: bytes -> bytes, pub: bytes): bytes {
    if pub in names then names[pub] else nickname(pub)
  }

  /** _track_session: name and role are always set, the route only from an observed path. */
  function Tracked(sessions: SessionMap, name: bytes, pub: bytes, isAdmin: bool, p: Packet): Session
    requires WellFormed(p)
  {
    var r := ReturnRoute(p);
    var s := if pub in sessions then sessions[pub] else Session(name, isAdmin, FLOOD, [], 1);
    if r.routeType == DIRECT then Session(name, isAdmin, r.routeType, r.path, r.hashSize)
    else s.(name := name, isAdmin := isAdmin)
  }

  lemma TrackedRouteOk(sessions: SessionMap, name: bytes, pub: bytes, isAdmin: bool, p: Packet)
    requires WellFormed(p) && (pub in sessions ==> RouteOk(sessions[pub]))
    ensures RouteOk(Tracked(sessions, name, pub, isAdmin, p))
  {
    ReturnRouteOk(p);
  }

  /** A session's route updated from a PATH message; an empty path teaches nothing. */
  function Learned(s: Session, m: PathMsg): Session {
    if m.path == [] then s else s.(routeType := DIRECT, path := m.path, hashSize := m.hashSize)
  }

  // ---- the hash index ----

  /** sessions_at: the keys listed under a one-byte address. */
  function Found(index: HashIndex, h: byte): set<bytes> {
    if h in index then index[h] else {}
  }

  /** The linear scan the index stands for. */
  function Scan(sessions: SessionMap, h: byte): set<bytes> {
    set p | p in sessions && p != [] && p[0] == h
  }

  ghost predicate Indexed(index: HashIndex, sessions: SessionMap) {
    forall h: byte :: Found(index, h) == Scan(sessions, h)
  }

  function WithKey(index: HashIndex, pub: bytes): HashIndex
    requires pub != []
  {
    index[pub[0] := Found(index, pub[0]) + {pub}]
  }

  /** The index stays exact when a session is updated or added. */
  lemma TrackKeepsIndex(index: HashIndex, sessions: SessionMap, pub: bytes, s: Session)
    requires Indexed(index, sessions) && pub != []
    ensures Indexed(if pub in sessions then index else WithKey(index, pub), sessions[pub := s])
  {
    var index' := if pub in sessions then index else WithKey(index, pub);
    forall h: byte ensures Found(index', h) == Scan(sessions[pub := s], h) {
      assert Found(index, h) == Scan(sessions, h);
      assert Scan(sessions[pub := s], h) == Scan(sessions, h) + if pub[0] == h then {pub} else {};
    }
  }

  // ---- roles ----

  datatype Login = Login(pub: bytes, isAdmin: bool)

  /** The role granted by a client's latest accepted login. */
  function LatestRole(logins: seq<Login>, pub: bytes): Option<bool> {
    if logins == [] then None
    else
      var last := logins[|logins| - 1];
      if last.pub == pub then Some(last.isAdmin) else LatestRole(logins[..|logins| - 1], pub)
  }

  /** Exactly the clients that ever logged in have sessions, each with the role of its latest login. */
  ghost predicate RolesOk(sessions: SessionMap, logins: seq<Login>) {
    forall p :: match LatestRole(logins, p)
      case None => p !in sessions
      case Some(role) => p in sessions && sessions[p].isAdmin == role
  }

  // ---- the invariant on sessions ----

  ghost predicate SessionOk(host: Host, names: map<bytes, bytes>, pub: bytes, s: Session) {
    && |pub| == PUB_KEY_SIZE && host.c.ecdh(host.seed, pub).Some?
    && RouteOk(s) && s.name == NameOf(names, host.nickname, pub)
  }

  ghost predicate SessionsOk(host: Host, sessions: SessionMap, names: map<bytes, bytes>, index: HashIndex,
                             logins: seq<Login>) {
    && Indexed(index, sessions)
    && RolesOk(sessions, logins)
    && forall p :: p in sessions ==> SessionOk(host, names, p, sessions[p])
  }

  /** Tracking keeps the invariant: for a login, which appends a role, or for a post, which repeats one. */
  lemma TrackKeepsSessions(host: Host, sessions: SessionMap, names: map<bytes, bytes>, index: HashIndex,
                           logins: seq<Login>, logins': seq<Login>, pub: bytes, isAdmin: bool, p: Packet)
    requires SessionsOk(host, sessions, names, index, logins) && WellFormed(p)
    requires |pub| == PUB_KEY_SIZE && host.c.ecdh(host.seed, pub).Some?
    requires logins' == logins + [Login(pub, isAdmin)]
      || (logins' == logins && pub in sessions && isAdmin == sessions[pub].isAdmin)
    ensures var index' := if pub in sessions then index else WithKey(index, pub);
      SessionsOk(host, sessions[pub := Tracked(sessions, NameOf(names, host.nickname, pub), pub, isAdmin, p)], names,
                 index', logins')
  {
    var s := Tracked(sessions, NameOf(names, host.nickname, pub), pub, isAdmin, p);
    TrackedRouteOk(sessions, NameOf(names, host.nickname, pub), pub, isAdmin, p);
    TrackKeepsIndex(index, sessions, pub, s);
    TrackKeepsRoles(sessions, logins, logins', pub, s);
  }

  lemma TrackKeepsRoles(sessions: SessionMap, logins: seq<Login>, logins': seq<Login>, pub: bytes, s: Session)
    requires RolesOk(sessions, logins)
    requires logins' == logins + [Login(pub, s.isAdmin)]
      || (logins' == logins && pub in sessions && s.isAdmin == sessions[pub].isAdmin)
    ensures RolesOk(sessions[pub := s], logins')
  {
    var sessions' := sessions[pub := s];
    forall p ensures match LatestRole(logins', p)
      case None => p !in sessions'
      case Some(role) => p in sessions' && sessions'[p].isAdmin == role
    {
      if logins' != logins {
        assert logins'[..|logins|] == logins;
      }
      assert LatestRole(logins, p).None? ==> p !in sessions;
    }
  }

  /** Learning a route that fits, as every one read from a PATH message does, keeps the invariant. */
  lemma LearnKeepsSessions(host: Host, sessions: SessionMap, names: map<bytes, bytes>, index: HashIndex,
                           logins: seq<Login>, pub: bytes, m: PathMsg)
    requires SessionsOk(host, sessions, names, index, logins) && pub in sessions && RouteFits(m.path, m.hashSize)
    ensures SessionsOk(host, sessions[pub := Learned(sessions[pub], m)], names, index, logins)
  {
    assert SessionOk(host, names, pub, sessions[pub]);
    TrackKeepsIndex(index, sessions, pub, Learned(sessions[pub], m));
    TrackKeepsRoles(sessions, logins, logins, pub, Learned(sessions[pub], m));
  }

  function Renamed(sessions: SessionMap, pub: bytes, name: bytes): SessionMap {
    if pub in sessions then sessions[pub := sessions[pub].(name := name)] else sessions
  }

  /** Renaming a client, in the name table and in its session if it has one, keeps the invariant. */
  lemma RenameKeepsSessions(host: Host, sessions: SessionMap, names: map<bytes, bytes>, index: HashIndex,
                            logins: seq<Login>, pub: bytes, name: bytes)
    requires SessionsOk(host, sessions, names, index, logins) && |pub| == PUB_KEY_SIZE
    ensures SessionsOk(host, Renamed(sessions, pub, name), names[pub := name], index, logins)
  {
    if pub in sessions {
      var s := sessions[pub].(name := name);
      assert SessionOk(host, names, pub, sessions[pub]);
      TrackKeepsIndex(index, sessions, pub, s);
      TrackKeepsRoles(sessions, logins, logins, pub, s);
    }
  }

  // ---- what reaches the air ----

  /**
    A packet sent over a session's route is never refused by the encoder; every decoder accepts it iff the
    route is at most 64 bytes long.
   */
  lemma SessionRouteOnAir(s: Session, p: Packet)
    requires RouteOk(s) && InRange(p) && p.transportCodes.None?
    requires p.routeType == s.routeType && p.path == s.path && p.hashSize == s.hashSize
    ensures Encode(p).Success?
    ensures Decode(Wire(p)) == Success(p) <==> |s.path| <= MAX_PATH_SIZE
  {
    DecodeOfEncode(p);
  }

  /**
    Any aligned path of at most 63 hops can be taught: a PATH packet carrying it is received and opened, the session
    takes it as its route, and every push along it encodes - and is decoded by nobody if it is over 64 bytes long.
   */
  lemma LearnedRouteOnAir(c: Suite, secret: bytes, destHash: int, srcPubKey: bytes, path: bytes, hashSize: int,
                          extraType: int, extra: bytes, s: Session, payload: bytes)
    requires |secret| >= BLOCK && srcPubKey != [] && path != [] && RouteFits(path, hashSize) && RouteOk(s)
    ensures var sent := PathPacket(c, secret, destHash, srcPubKey, path, hashSize, extraType, extra, FLOOD, [], 1);
      && Decode(Wire(sent)) == Success(sent)
      && var m := TryDecryptPath(c, sent.payload, secret);
      && m.Some?
      && var s' := Learned(s, m.value);
      && RouteOk(s') && s'.routeType == DIRECT && s'.path == path && s'.hashSize == hashSize
      && var push := Packet(s'.routeType, TYPE_TXT_MSG, 0, None, s'.path, payload, s'.hashSize);
      && Encode(push) == Success(Wire(push))
      && (Decode(Wire(push)) == Success(push) <==> |path| <= MAX_PATH_SIZE)
      && (Decode(Wire(push)).Failure? <==> |path| > MAX_PATH_SIZE)
  {
    var sent := PathPacket(c, secret, destHash, srcPubKey, path, hashSize, extraType, extra, FLOOD, [], 1);
    DecodeOfEncode(sent);
    PathRoundTrip(c, secret, destHash, PathHash(srcPubKey), path, hashSize, extraType, extra);
    LearnedPushOnAir(path, hashSize, payload);
  }

  lemma LearnedPushOnAir(path: bytes, hashSize: int, payload: bytes)
    requires path != [] && RouteFits(path, hashSize)
    ensures var push := Packet(DIRECT, TYPE_TXT_MSG, 0, None, path, payload, hashSize);
      && Encode(push) == Success(Wire(push))
      && (Decode(Wire(push)) == Success(push) <==> |path| <= MAX_PATH_SIZE)
      && (Decode(Wire(push)).Failure? <==> |path| > MAX_PATH_SIZE)
  {
    var push := Packet(DIRECT, TYPE_TXT_MSG, 0, None, path, payload, hashSize);
    DecodeOfEncode(push);
    if |path| > MAX_PATH_SIZE {
      LongPathRefused(push);
    }
  }

  // ---- the login answer ----

  function Permissions(isAdmin: bool): byte {
    if isAdmin then Room.PERM_ACL_ADMIN else Room.PERM_ACL_READ_WRITE
  }

  function LoginAnswer(host: Host, client: bytes, isAdmin: bool, serverTs: int,
                       random: bytes, p: Packet): Packet
    requires WellFormed(p) && host.c.ecdh(host.seed, client).Some? && client != [] && host.pubKey != []
    requires IsU32(serverTs)
  {
    var r := ReturnRoute(p);
    Room.LoginResponsePacket(host.c, host.c.ecdh(host.seed, client).value, PathHash(client), PathHash(host.pubKey),
      serverTs, isAdmin, Permissions(isAdmin), random, r.routeType, r.path, r.hashSize)
  }

  /** Every login is answered over a route that reaches the air. */
  lemma LoginAnswerEncodes(host: Host, client: bytes, isAdmin: bool, serverTs: int,
                           random: bytes, p: Packet)
    requires WellFormed(p) && host.c.ecdh(host.seed, client).Some? && client != [] && host.pubKey != []
    requires IsU32(serverTs)
    ensures var answer := LoginAnswer(host, client, isAdmin, serverTs, random, p);
      WellFormed(answer) && Decode(Wire(answer)) == Success(answer)
  {
    ReturnRouteOk(p);
    DecodeOfEncode(LoginAnswer(host, client, isAdmin, serverTs, random, p));
  }

  /** The client reads its role out of the answer, and permission to post, whichever it is. */
  lemma LoginAnswerReads(host: Host, client: bytes, isAdmin: bool, serverTs: int,
                         random: bytes, p: Packet)
    requires WellFormed(p) && host.c.ecdh(host.seed, client).Some? && client != [] && host.pubKey != []
    requires IsU32(serverTs)
    ensures var answer := LoginAnswer(host, client, isAdmin, serverTs, random, p);
      Room.TryDecryptLoginResponse(host.c, answer.payload, host.c.ecdh(host.seed, client).value)
        == Some(Room.LoginResponse(serverTs, 0, isAdmin, if isAdmin then 3 else 2))
  {
    var permissions: int := Permissions(isAdmin);
    assert permissions % 256 == permissions;
    Room.LoginResponseRoundTrip(host.c, host.c.ecdh(host.seed, client).value, PathHash(client), PathHash(host.pubKey),
      serverTs, isAdmin, permissions, random);
  }

  /** The answer goes straight back along the path the login came by, if any, and otherwise floods. */
  lemma LoginAnswerRoute(host: Host, client: bytes, isAdmin: bool, serverTs: int, random: bytes, p: Packet)
    requires WellFormed(p) && host.c.ecdh(host.seed, client).Some? && client != [] && host.pubKey != []
    requires IsU32(serverTs)
    ensures var answer := LoginAnswer(host, client, isAdmin, serverTs, random, p);
      && answer.payloadType == TYPE_RESPONSE
      && answer.payload == [client[0], host.pubKey[0]] + Seal(host.c, host.c.ecdh(host.seed, client).value,
           Le4(serverTs) + [0, 0, if isAdmin then 1 else 0, if isAdmin then 3 else 2] + random + [1])
      && if p.path == [] then answer.routeType == FLOOD && answer.path == []
         else answer.routeType == DIRECT && RouteFits(answer.path, p.hashSize)
              && Hops(answer.path, p.hashSize) == Reversed(Hops(p.path, p.hashSize))
  {
    ReturnRouteOk(p);
    var r := ReturnRoute(p);
    Room.LoginResponseBytes(host.c, host.c.ecdh(host.seed, client).value, client[0], host.pubKey[0], serverTs, isAdmin,
                            Permissions(isAdmin), random, r.routeType, r.path, r.hashSize);
  }
}
