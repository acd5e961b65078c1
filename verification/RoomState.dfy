/** The room server (protocol.py) as a transition system: what each received frame may do, and what whole runs do. */
module RoomStates {
  import opened Bytes
  import opened Wrappers
  import opened Packets
  import opened Crypto
  import opened Messaging
  import opened Inbound
  import opened Sessions
  import Advert
  import AckTable
  import Recent
  import Room
  import Store

  datatype Config = Config(adminPassword: bytes, guestPassword: bytes, ttl: real,
                           directAttempts: int, floodAttempts: int, maxSyncPosts: int)

  /** Work handed to a background task. */
  datatype Task = SyncTask(pub: bytes, since: int) | FanOutTask(post: Store.Post)

  /** A message stored as a post, and the call of remember_message that found it new. */
  datatype Filing = Filing(call: nat, h: Handled)

  /** The server and its store, together with the accepted logins and the calls of remember_message so far. */
  datatype State = State(
    sessions: SessionMap, names: map<bytes, bytes>, advertTs: map<bytes, int>,
    published: seq<bytes>, spawned: seq<Task>,
    posts: seq<Store.Post>, lastId: int, clients: Store.Clients, acks: AckTable.State,
    logins: seq<Login>, history: seq<Recent.Call>, filed: seq<Filing>)

  /** What came of a received frame. */
  datatype Outcome =
    | Ignored
    | Named(ad: Advert.Advertisement)
    | Acked(hash: bytes)
    | Learnt(l: LearnedPath)
    | LoggedIn(req: Room.LoginReq, isAdmin: bool)
    | Posted(h: Handled, isNew: bool)

  // ---- which outcomes a frame can have ----

  /** The login a packet asks for and the role it is granted, if it is for us, decrypts and knows a password. */
  function Admits(host: Host, config: Config, p: Packet): (r: Option<(Room.LoginReq, bool)>)
    requires host.pubKey != []
    ensures r.Some? ==> |r.value.0.clientPubKey| == PUB_KEY_SIZE && HasSecret(host, r.value.0.clientPubKey)
  {
    if !Addressed(host, p) then None
    else
      match Room.TryDecryptLogin(host.c, p.payload, host.seed)
      case None => None
      case Some(req) =>
        match Classify(req.password, config.adminPassword, config.guestPassword)
        case None => None
        case Some(isAdmin) => Some((req, isAdmin))
  }

  /** The keys a message to this host may be from: those of the sessions at its sender's address. */
  function Candidates(host: Host, sessions: SessionMap, p: Packet): set<bytes>
    requires host.pubKey != []
  {
    if Addressed(host, p) && |p.payload| > 1 then Scan(sessions, p.payload[1]) else {}
  }

  ghost predicate AdvertPossible(host: Host, s: State, p: Packet, o: Outcome) {
    var ad := Advertised(host, p);
    if ad.None? || Stale(s.advertTs, ad.value) then o == Ignored else o == Named(ad.value)
  }

  ghost predicate AckPossible(p: Packet, o: Outcome) {
    match ParseAck(p.payload)
    case None => o == Ignored
    case Some(hash) => o == Acked(hash)
  }

  ghost predicate PathPossible(host: Host, s: State, p: Packet, o: Outcome)
    requires host.pubKey != []
  {
    match o
    case Ignored => forall pub :: pub in Candidates(host, s.sessions, p) ==> !CanOpenPath(host, p.payload, pub)
    case Learnt(l) => l.pub in Candidates(host, s.sessions, p) && OpensPath(host, p.payload, l)
    case _ => false
  }

  ghost predicate LoginPossible(host: Host, config: Config, p: Packet, o: Outcome)
    requires host.pubKey != []
  {
    match Admits(host, config, p)
    case None => o == Ignored
    case Some((req, isAdmin)) => o == LoggedIn(req, isAdmin)
  }

  /** A message that a session's key opens is posted, as new iff no call with its key was accepted within the ttl. */
  ghost predicate PostPossible(host: Host, config: Config, s: State, p: Packet, at: real, o: Outcome)
    requires host.pubKey != []
  {
    match o
    case Ignored => forall pub :: pub in Candidates(host, s.sessions, p) ==> !CanOpenTxt(host, p.payload, pub)
    case Posted(h, isNew) =>
      && h.pub in Candidates(host, s.sessions, p) && OpensTxt(host, p.payload, h)
      && (OpenedTxt(host, p.payload, h); isNew <==> !Recent.AcceptedSince(s.history, AckKey(host, h), at - config.ttl))
    case _ => false
  }

  /** Dispatch by payload type. */
  ghost predicate Possible(host: Host, config: Config, s: State, f: Frame, o: Outcome)
    requires host.pubKey != []
  {
    match Decode(f.wire)
    case Failure(_) => o == Ignored
    case Success(p) =>
      if p.payloadType == TYPE_ADVERT then AdvertPossible(host, s, p, o)
      else if p.payloadType == TYPE_ACK then AckPossible(p, o)
      else if p.payloadType == TYPE_PATH then PathPossible(host, s, p, o)
      else if p.payloadType == TYPE_ANON_REQ then LoginPossible(host, config, p, o)
      else if p.payloadType == TYPE_TXT_MSG then PostPossible(host, config, s, p, f.at, o)
      else o == Ignored
  }

  // ---- what each outcome does ----

  function AfterAdvert(s: State, ad: Advert.Advertisement): State {
    var seen := s.(advertTs := s.advertTs[ad.pubKey := ad.timestamp]);
    var name := ad.appData.name;
    if name == [] then seen
    else seen.(names := s.names[ad.pubKey := name], sessions := Renamed(s.sessions, ad.pubKey, name))
  }

  /** The waiter table once the ACK bundled in a PATH message, if any, has been resolved. */
  function BundledAck(acks: AckTable.State, m: PathMsg): AckTable.State {
    if m.extraType == TYPE_ACK && |m.extra| >= ACK_HASH_SIZE then
      AckTable.After(acks, AckTable.Resolve(m.extra[..ACK_HASH_SIZE]))
    else acks
  }

  function AfterPath(s: State, l: LearnedPath): State
    requires l.pub in s.sessions
  {
    s.(sessions := s.sessions[l.pub := Learned(s.sessions[l.pub], l.msg)], acks := BundledAck(s.acks, l.msg))
  }

  /** The sessions once a packet from this client, in this role, has been tracked. */
  function WithTracked(host: Host, s: State, pub: bytes, isAdmin: bool, p: Packet): SessionMap
    requires WellFormed(p)
  {
    s.sessions[pub := Tracked(s.sessions, NameOf(s.names, host.nickname, pub), pub, isAdmin, p)]
  }

  /** A client tracked, recorded, answered with this wire, and given a sync. */
  function Enrolled(host: Host, s: State, p: Packet, pub: bytes, isAdmin: bool, serverTs: int, answer: bytes,
                    since: int): State
    requires WellFormed(p)
  {
    s.(sessions := WithTracked(host, s, pub, isAdmin, p),
       logins := s.logins + [Login(pub, isAdmin)],
       clients := Store.Applied(s.clients, Store.Login(pub, NameOf(s.names, host.nickname, pub), isAdmin, serverTs)),
       published := s.published + [answer],
       spawned := s.spawned + [SyncTask(pub, since)])
  }

  function AfterLogin(host: Host, s: State, p: Packet, serverTs: int, random: bytes, req: Room.LoginReq,
                      isAdmin: bool): State
    requires host.pubKey != [] && WellFormed(p) && IsU32(serverTs)
    requires req.clientPubKey != [] && HasSecret(host, req.clientPubKey)
  {
    LoginAnswerEncodes(host, req.clientPubKey, isAdmin, serverTs, random, p);
    var answer := Wire(LoginAnswer(host, req.clientPubKey, isAdmin, serverTs, random, p));
    Enrolled(host, s, p, req.clientPubKey, isAdmin, serverTs, answer, req.syncSince)
  }

  /** Only a new plain message becomes a post. */
  predicate Stores(h: Handled, isNew: bool) {
    isNew && h.msg.txtType == TXT_TYPE_PLAIN
  }

  function Row(lastId: int, h: Handled): Store.Post {
    Store.Post(lastId + 1, h.pub, h.msg.timestamp, h.msg.text, 0)
  }

  /** The message just judged, as a post handed to fan-out. */
  function WithPost(s: State, call: nat, h: Handled): State {
    s.(posts := s.posts + [Row(s.lastId, h)], lastId := s.lastId + 1,
       spawned := s.spawned + [FanOutTask(Row(s.lastId, h))], filed := s.filed + [Filing(call, h)])
  }

  /** A message from a tracked client, judged under its key, answered with this wire, and stored if it is to be. */
  function Absorbed(s: State, h: Handled, call: Recent.Call, ack: bytes): State {
    var answered := s.(history := s.history + [call], published := s.published + [ack]);
    if Stores(h, call.accepted) then WithPost(answered, |s.history|, h) else answered
  }

  function AfterPost(host: Host, s: State, p: Packet, at: real, h: Handled, isNew: bool): State
    requires host.pubKey != [] && WellFormed(p) && OpensTxt(host, p.payload, h) && h.pub in s.sessions
  {
    OpenedTxt(host, p.payload, h);
    PostAckReads(host, h, p);
    var tracked := s.(sessions := WithTracked(host, s, h.pub, s.sessions[h.pub].isAdmin, p));
    Absorbed(tracked, h, Recent.Call(AckKey(host, h), at, isNew), Wire(PostAck(host, h, p)))
  }

  /**
    What handling a login, or a text message, comes to: an outcome it can have, and the state that outcome leads to.
   */
  ghost predicate LoginStep(host: Host, config: Config, s: State, p: Packet, serverTs: int, random: bytes, o: Outcome,
                            t: State)
    requires host.pubKey != [] && WellFormed(p) && IsU32(serverTs)
  {
    match o
    case Ignored => LoginPossible(host, config, p, o) && t == s
    case LoggedIn(req, isAdmin) =>
      LoginPossible(host, config, p, o) && t == AfterLogin(host, s, p, serverTs, random, req, isAdmin)
    case _ => false
  }

  ghost predicate PostStep(host: Host, config: Config, s: State, p: Packet, at: real, o: Outcome, t: State)
    requires host.pubKey != [] && WellFormed(p)
  {
    match o
    case Ignored => PostPossible(host, config, s, p, at, o) && t == s
    case Posted(h, isNew) => PostPossible(host, config, s, p, at, o) && t == AfterPost(host, s, p, at, h, isNew)
    case _ => false
  }

  ghost predicate AdvertStep(host: Host, s: State, p: Packet, o: Outcome, t: State) {
    match o
    case Named(ad) => AdvertPossible(host, s, p, o) && t == AfterAdvert(s, ad)
    case _ => AdvertPossible(host, s, p, o) && t == s
  }

  ghost predicate PathStep(host: Host, s: State, p: Packet, o: Outcome, t: State)
    requires host.pubKey != []
  {
    match o
    case Ignored => PathPossible(host, s, p, o) && t == s
    case Learnt(l) => PathPossible(host, s, p, o) && t == AfterPath(s, l)
    case _ => false
  }

  /** A message from this session, tracked and then absorbed. */
  ghost predicate HeedStep(host: Host, s: State, p: Packet, h: Handled, call: Recent.Call, ack: bytes, t: State)
    requires WellFormed(p)
  {
    match call
    case Call(_, _, _) =>
      h.pub in s.sessions
        && t == Absorbed(s.(sessions := WithTracked(host, s, h.pub, s.sessions[h.pub].isAdmin, p)), h, call, ack)
  }

  lemma HeedIsStep(host: Host, config: Config, s: State, p: Packet, at: real, h: Handled, call: Recent.Call, ack: bytes,
                   t: State)
    requires host.pubKey != [] && WellFormed(p) && h.pub in Candidates(host, s.sessions, p)
    requires OpensTxt(host, p.payload, h)
    requires IsU32(h.msg.timestamp) && IsTxtType(h.msg.txtType)
    requires call ==
      Recent.Call(AckKey(host, h), at, !Recent.AcceptedSince(s.history, AckKey(host, h), at - config.ttl))
    requires Encodable(PostAck(host, h, p)) && ack == Wire(PostAck(host, h, p)) && HeedStep(host, s, p, h, call, ack, t)
    ensures PostStep(host, config, s, p, at, Posted(h, call.accepted), t)
  {
  }

  ghost function After(host: Host, config: Config, s: State, f: Frame, o: Outcome): State
    requires host.pubKey != [] && IsU32(f.serverTs) && Possible(host, config, s, f, o)
  {
    match Decode(f.wire)
    case Failure(_) => s
    case Success(p) =>
      EncodeOfDecode(f.wire);
      match o
      case Ignored => s
      case Named(ad) => AfterAdvert(s, ad)
      case Acked(hash) => s.(acks := AckTable.After(s.acks, AckTable.Resolve(hash)))
      case Learnt(l) => AfterPath(s, l)
      case LoggedIn(req, isAdmin) => AfterLogin(host, s, p, f.serverTs, f.random, req, isAdmin)
      case Posted(h, isNew) => AfterPost(host, s, p, f.at, h, isNew)
  }

  /** One step: an outcome the frame can have, and the state that outcome leads to. */
  ghost predicate Stepped(host: Host, config: Config, s: State, f: Frame, o: Outcome, t: State)
    requires host.pubKey != [] && IsU32(f.serverTs)
  {
    Possible(host, config, s, f, o) && t == After(host, config, s, f, o)
  }

  lemma PostStepIsStep(host: Host, config: Config, s: State, f: Frame, p: Packet, o: Outcome, t: State)
    requires host.pubKey != [] && IsU32(f.serverTs) && Decode(f.wire) == Success(p) && p.payloadType == TYPE_TXT_MSG
    requires WellFormed(p) && PostStep(host, config, s, p, f.at, o, t)
    ensures Stepped(host, config, s, f, o, t)
  {
  }

  lemma LoginStepIsStep(host: Host, config: Config, s: State, f: Frame, p: Packet, o: Outcome, t: State)
    requires host.pubKey != [] && IsU32(f.serverTs) && Decode(f.wire) == Success(p) && p.payloadType == TYPE_ANON_REQ
    requires WellFormed(p) && LoginStep(host, config, s, p, f.serverTs, f.random, o, t)
    ensures Stepped(host, config, s, f, o, t)
  {
  }

  // ---- runs ----

  ghost predicate ClockFits(frames: seq<Frame>) {
    forall i :: 0 <= i < |frames| ==> IsU32(frames[i].serverTs)
  }

  /** The outcomes are possible ones, frame after frame. */
  ghost predicate Follows(host: Host, config: Config, s: State, frames: seq<Frame>, outcomes: seq<Outcome>)
    requires host.pubKey != [] && ClockFits(frames)
    decreases |frames|, 0
  {
    && |outcomes| == |frames|
    && (frames == []
        || var n := |frames| - 1;
           && Follows(host, config, s, frames[..n], outcomes[..n])
           && Possible(host, config, Reach(host, config, s, frames[..n], outcomes[..n]), frames[n], outcomes[n]))
  }

  /** The state after a run. */
  ghost function Reach(host: Host, config: Config, s: State, frames: seq<Frame>, outcomes: seq<Outcome>): State
    requires host.pubKey != [] && ClockFits(frames) && Follows(host, config, s, frames, outcomes)
    decreases |frames|, 1
  {
    if frames == [] then s
    else
      var n := |frames| - 1;
      After(host, config, Reach(host, config, s, frames[..n], outcomes[..n]), frames[n], outcomes[n])
  }

  /** A whole run: outcomes the frames can have, one after another, and the state they lead to. */
  ghost predicate RunsTo(host: Host, config: Config, s: State, frames: seq<Frame>, outcomes: seq<Outcome>, t: State)
    requires host.pubKey != [] && ClockFits(frames)
  {
    Follows(host, config, s, frames, outcomes) && t == Reach(host, config, s, frames, outcomes)
  }

  lemma RunsOn(host: Host, config: Config, s: State, frames: seq<Frame>, outcomes: seq<Outcome>, mid: State, f: Frame,
               o: Outcome, t: State)
    requires host.pubKey != [] && IsU32(f.serverTs) && ClockFits(frames + [f]) && ClockFits(frames)
    requires RunsTo(host, config, s, frames, outcomes, mid) && Stepped(host, config, mid, f, o, t)
    ensures RunsTo(host, config, s, frames + [f], outcomes + [o], t)
  {
    assert (frames + [f])[..|frames|] == frames && (outcomes + [o])[..|frames|] == outcomes;
  }

  /** Within a run each outcome is possible where the run has got to. */
  lemma {:induction false} FollowsAt(host: Host, config: Config, s: State, frames: seq<Frame>, outcomes: seq<Outcome>,
                                     i: nat)
    requires host.pubKey != [] && ClockFits(frames) && Follows(host, config, s, frames, outcomes) && i < |frames|
    ensures Follows(host, config, s, frames[..i], outcomes[..i])
    ensures Possible(host, config, Reach(host, config, s, frames[..i], outcomes[..i]), frames[i], outcomes[i])
    decreases |frames|
  {
    var n := |frames| - 1;
    if i < n {
      FollowsAt(host, config, s, frames[..n], outcomes[..n], i);
      assert frames[..n][..i] == frames[..i] && outcomes[..n][..i] == outcomes[..i];
    }
  }

  // ---- who is let in, and who is named ----

  /**
    In any run a login is let in as administrator exactly by the administrators' password, if one is set, and as guest
    exactly by the guests', if one is set and it is not the administrators'.
   */
  lemma LoggedInExactly(host: Host, config: Config, s: State, frames: seq<Frame>, outcomes: seq<Outcome>, i: nat,
                        req: Room.LoginReq, isAdmin: bool)
    requires host.pubKey != [] && ClockFits(frames) && Follows(host, config, s, frames, outcomes) && i < |frames|
    requires Decode(frames[i].wire).Success? && Decode(frames[i].wire).value.payloadType == TYPE_ANON_REQ
    ensures var payload := Decode(frames[i].wire).value.payload;
      var asAdmin := config.adminPassword != [] && req.password == config.adminPassword;
      var asGuest := config.guestPassword != [] && req.password == config.guestPassword;
      outcomes[i] == LoggedIn(req, isAdmin) <==>
        && payload != [] && payload[0] == host.pubKey[0]
        && Room.TryDecryptLogin(host.c, payload, host.seed) == Some(req)
        && (if isAdmin then asAdmin else asGuest && !asAdmin)
  {
    FollowsAt(host, config, s, frames, outcomes, i);
    assert LoginPossible(host, config, Decode(frames[i].wire).value, outcomes[i]);
  }

  /** And it is recorded so: in the session, in the clients table, and as the latest login. */
  lemma LoginRecorded(host: Host, config: Config, s: State, f: Frame, o: Outcome)
    requires host.pubKey != [] && IsU32(f.serverTs) && Possible(host, config, s, f, o) && o.LoggedIn?
    ensures var t, pub := After(host, config, s, f, o), o.req.clientPubKey;
      && t.logins == s.logins + [Login(pub, o.isAdmin)]
      && var name := if pub in s.names then s.names[pub] else host.nickname(pub);
      && pub in t.sessions && t.sessions[pub].isAdmin == o.isAdmin && t.sessions[pub].name == name
      && pub in t.clients && t.clients[pub].isAdmin == o.isAdmin && t.clients[pub].name == name
      && t.clients[pub].lastLogin == f.serverTs
      && t.clients[pub].lastTimestamp == (if pub in s.clients then s.clients[pub].lastTimestamp else 0)
  {
  }

  /** The candidates for a message to this host are the sessions whose key begins with its second byte. */
  lemma CandidatesExactly(host: Host, sessions: SessionMap, p: Packet, pub: bytes)
    requires host.pubKey != []
    ensures pub in Candidates(host, sessions, p) <==>
      && |p.payload| > 1 && p.payload[0] == host.pubKey[0]
      && pub in sessions && pub != [] && pub[0] == p.payload[1]
  {
  }

  /** An ACK is taken exactly when it is long enough, for its first four bytes. */
  lemma AckedExactly(host: Host, config: Config, s: State, f: Frame, o: Outcome, hash: bytes)
    requires host.pubKey != [] && Possible(host, config, s, f, o)
    requires Decode(f.wire).Success? && Decode(f.wire).value.payloadType == TYPE_ACK
    ensures var payload := Decode(f.wire).value.payload;
      o == Acked(hash) <==> |payload| >= 4 && hash == payload[..4]
  {
    assert AckPossible(Decode(f.wire).value, o);
  }

  /**
    A message that was opened is stored, and fanned out, exactly if it is new and plain: author, timestamp and text.
   */
  lemma PostedExactly(host: Host, config: Config, s: State, f: Frame, o: Outcome)
    requires host.pubKey != [] && IsU32(f.serverTs) && Possible(host, config, s, f, o) && o.Posted?
    ensures var t, m := After(host, config, s, f, o), o.h.msg;
      var row := Store.Post(s.lastId + 1, o.h.pub, m.timestamp, m.text, 0);
      if o.isNew && m.txtType == 0 then
        t.posts == s.posts + [row] && t.lastId == s.lastId + 1 && t.spawned == s.spawned + [FanOutTask(row)]
      else t.posts == s.posts && t.lastId == s.lastId && t.spawned == s.spawned
  {
    OneStep(host, config, s, f, o);
    PostedRows(s, o, After(host, config, s, f, o));
  }

  lemma PostedRows(s: State, o: Outcome, t: State)
    requires o.Posted? && AddsRows(s, RowIf(s.lastId, o), TaskIf(s.lastId, o), t)
    ensures var row := Store.Post(s.lastId + 1, o.h.pub, o.h.msg.timestamp, o.h.msg.text, 0);
      if o.isNew && o.h.msg.txtType == 0 then
        t.posts == s.posts + [row] && t.lastId == s.lastId + 1 && t.spawned == s.spawned + [FanOutTask(row)]
      else t.posts == s.posts && t.lastId == s.lastId && t.spawned == s.spawned
  {
  }

  /**
    An advert names a node exactly when it decodes, is not the host's own, is signed by its key, and is not older than
    the last one taken.
   */
  lemma NamedExactly(host: Host, config: Config, s: State, f: Frame, o: Outcome, ad: Advert.Advertisement)
    requires host.pubKey != [] && Possible(host, config, s, f, o)
    requires Decode(f.wire).Success? && Decode(f.wire).value.payloadType == TYPE_ADVERT
    ensures o == Named(ad) <==>
      && Advert.DecodeAdvert(Decode(f.wire).value.payload) == Success(ad) && ad.pubKey != host.pubKey
      && host.c.verify(ad.pubKey, ad.signature, ad.pubKey + Le4(ad.timestamp) + ad.rawAppData)
      && (ad.pubKey in s.advertTs ==> ad.timestamp >= s.advertTs[ad.pubKey])
  {
    AdvertisedExactly(host, Decode(f.wire).value, ad);
    assert AdvertPossible(host, s, Decode(f.wire).value, o);
  }

  // ---- what a run publishes, stores and records ----

  /** What a frame is answered with. */
  function AnswerTo(host: Host, f: Frame, o: Outcome): seq<bytes> {
    match Decode(f.wire)
    case Failure(_) => []
    case Success(p) =>
      EncodeOfDecode(f.wire);
      if host.pubKey == [] then []
      else
        match o
        case LoggedIn(req, isAdmin) =>
          if IsU32(f.serverTs) && req.clientPubKey != [] && HasSecret(host, req.clientPubKey) then
            LoginAnswerEncodes(host, req.clientPubKey, isAdmin, f.serverTs, f.random, p);
            [Wire(LoginAnswer(host, req.clientPubKey, isAdmin, f.serverTs, f.random, p))]
          else []
        case Posted(h, _) =>
          if OpensTxt(host, p.payload, h) then PostAckReads(host, h, p); [Wire(PostAck(host, h, p))] else []
        case _ => []
  }

  /** What a run adds: answers published, calls of remember_message, and accepted logins. */
  datatype Gain = Gain(answers: seq<bytes>, calls: seq<Recent.Call>, logins: seq<Login>)

  function GainOf(host: Host, f: Frame, o: Outcome): Gain {
    Gain(AnswerTo(host, f, o), CallOf(host, f, o), if o.LoggedIn? then [Login(o.req.clientPubKey, o.isAdmin)] else [])
  }

  function CallOf(host: Host, f: Frame, o: Outcome): seq<Recent.Call> {
    if o.Posted? && IsU32(o.h.msg.timestamp) && IsTxtType(o.h.msg.txtType) then
      [Recent.Call(AckKey(host, o.h), f.at, o.isNew)]
    else []
  }

  function Plus(a: Gain, b: Gain): Gain {
    Gain(a.answers + b.answers, a.calls + b.calls, a.logins + b.logins)
  }

  function Gains(host: Host, frames: seq<Frame>, outcomes: seq<Outcome>): Gain
    requires |frames| == |outcomes|
    decreases |frames|
  {
    if frames == [] then Gain([], [], [])
    else
      var n := |frames| - 1;
      Plus(Gains(host, frames[..n], outcomes[..n]), GainOf(host, frames[n], outcomes[n]))
  }

  function CountAnswered(outcomes: seq<Outcome>): nat {
    if outcomes == [] then 0
    else
      var n := |outcomes| - 1;
      CountAnswered(outcomes[..n]) + if outcomes[n].LoggedIn? || outcomes[n].Posted? then 1 else 0
  }

  predicate IsStored(o: Outcome) {
    o.Posted? && Stores(o.h, o.isNew)
  }

  /** The posts a run adds, numbered from lastId on. */
  function RowsOf(lastId: int, outcomes: seq<Outcome>): seq<Store.Post> {
    if outcomes == [] then []
    else
      var n := |outcomes| - 1;
      var rows := RowsOf(lastId, outcomes[..n]);
      rows + RowIf(lastId + |rows|, outcomes[n])
  }

  function RowIf(lastId: int, o: Outcome): seq<Store.Post> {
    if IsStored(o) then [Row(lastId, o.h)] else []
  }

  /** The background tasks a run starts: a sync for each login, and a fan-out for each post it adds. */
  function TasksOf(lastId: int, outcomes: seq<Outcome>): seq<Task> {
    if outcomes == [] then []
    else
      var n := |outcomes| - 1;
      TasksOf(lastId, outcomes[..n]) + TaskIf(lastId + |RowsOf(lastId, outcomes[..n])|, outcomes[n])
  }

  function TaskIf(lastId: int, o: Outcome): seq<Task> {
    if o.LoggedIn? then [SyncTask(o.req.clientPubKey, o.req.syncSince)]
    else if IsStored(o) then [FanOutTask(Row(lastId, o.h))]
    else []
  }

  /** t is s with this gain. */
  ghost predicate AddsUp(s: State, g: Gain, t: State) {
    && t.published == s.published + g.answers
    && t.history == s.history + g.calls
    && t.logins == s.logins + g.logins
  }

  /** t is s with these rows and tasks. */
  ghost predicate AddsRows(s: State, rows: seq<Store.Post>, tasks: seq<Task>, t: State) {
    t.posts == s.posts + rows && t.lastId == s.lastId + |rows| && t.spawned == s.spawned + tasks
  }

  ghost predicate StepAdds(host: Host, s: State, f: Frame, o: Outcome, t: State) {
    && AddsUp(s, GainOf(host, f, o), t)
    && |AnswerTo(host, f, o)| == (if o.LoggedIn? || o.Posted? then 1 else 0)
    && AddsRows(s, RowIf(s.lastId, o), TaskIf(s.lastId, o), t)
  }

  lemma PostAdds(host: Host, config: Config, s: State, f: Frame, o: Outcome)
    requires host.pubKey != [] && IsU32(f.serverTs) && Possible(host, config, s, f, o) && o.Posted?
    ensures StepAdds(host, s, f, o, After(host, config, s, f, o))
  {
    var p := Decode(f.wire).value;
    EncodeOfDecode(f.wire);
    OpenedTxt(host, p.payload, o.h);
    PostAckReads(host, o.h, p);
    var tracked := s.(sessions := WithTracked(host, s, o.h.pub, s.sessions[o.h.pub].isAdmin, p));
    AbsorbedAdds(tracked, o.h, Recent.Call(AckKey(host, o.h), f.at, o.isNew), Wire(PostAck(host, o.h, p)));
  }

  lemma AbsorbedAdds(s: State, h: Handled, call: Recent.Call, ack: bytes)
    ensures var t := Absorbed(s, h, call, ack);
      && AddsUp(s, Gain([ack], [call], []), t)
      && AddsRows(s, RowIf(s.lastId, Posted(h, call.accepted)), TaskIf(s.lastId, Posted(h, call.accepted)), t)
  {
  }

  lemma LoginAdds(host: Host, config: Config, s: State, f: Frame, o: Outcome)
    requires host.pubKey != [] && IsU32(f.serverTs) && Possible(host, config, s, f, o) && o.LoggedIn?
    ensures StepAdds(host, s, f, o, After(host, config, s, f, o))
  {
  }

  /** Answers, history, logins, rows and tasks are as they were. */
  ghost predicate SameRecords(s: State, t: State) {
    && t.published == s.published && t.history == s.history && t.logins == s.logins
    && t.posts == s.posts && t.lastId == s.lastId && t.spawned == s.spawned
  }

  lemma NothingRecorded(host: Host, config: Config, s: State, f: Frame, o: Outcome)
    requires host.pubKey != [] && IsU32(f.serverTs) && Possible(host, config, s, f, o) && !o.Posted? && !o.LoggedIn?
    ensures SameRecords(s, After(host, config, s, f, o))
  {
  }

  lemma NothingAdds(host: Host, s: State, f: Frame, o: Outcome, t: State)
    requires !o.Posted? && !o.LoggedIn? && SameRecords(s, t)
    ensures StepAdds(host, s, f, o, t)
  {
  }

  lemma OneStep(host: Host, config: Config, s: State, f: Frame, o: Outcome)
    requires host.pubKey != [] && IsU32(f.serverTs) && Possible(host, config, s, f, o)
    ensures StepAdds(host, s, f, o, After(host, config, s, f, o))
  {
    if o.Posted? {
      PostAdds(host, config, s, f, o);
    } else if o.LoggedIn? {
      LoginAdds(host, config, s, f, o);
    } else {
      NothingRecorded(host, config, s, f, o);
      NothingAdds(host, s, f, o, After(host, config, s, f, o));
    }
  }

  lemma OneMore(s: State, a: Gain, mid: State, b: Gain, t: State)
    requires AddsUp(s, a, mid) && AddsUp(mid, b, t)
    ensures AddsUp(s, Plus(a, b), t)
  {
  }

  lemma {:induction false} RunGains(host: Host, config: Config, s: State, frames: seq<Frame>, outcomes: seq<Outcome>)
    requires host.pubKey != [] && ClockFits(frames) && Follows(host, config, s, frames, outcomes)
    ensures AddsUp(s, Gains(host, frames, outcomes), Reach(host, config, s, frames, outcomes))
    ensures |Gains(host, frames, outcomes).answers| == CountAnswered(outcomes)
    decreases |frames|
  {
    if frames != [] {
      var n := |frames| - 1;
      var mid := Reach(host, config, s, frames[..n], outcomes[..n]);
      RunGains(host, config, s, frames[..n], outcomes[..n]);
      OneStep(host, config, mid, frames[n], outcomes[n]);
      OneMore(s, Gains(host, frames[..n], outcomes[..n]), mid, GainOf(host, frames[n], outcomes[n]),
              After(host, config, mid, frames[n], outcomes[n]));
    }
  }

  lemma {:induction false} RunRows(host: Host, config: Config, s: State, frames: seq<Frame>, outcomes: seq<Outcome>)
    requires host.pubKey != [] && ClockFits(frames) && Follows(host, config, s, frames, outcomes)
    ensures AddsRows(s, RowsOf(s.lastId, outcomes), TasksOf(s.lastId, outcomes),
                     Reach(host, config, s, frames, outcomes))
    decreases |frames|
  {
    if frames != [] {
      var n := |frames| - 1;
      var mid := Reach(host, config, s, frames[..n], outcomes[..n]);
      RunRows(host, config, s, frames[..n], outcomes[..n]);
      OneStep(host, config, mid, frames[n], outcomes[n]);
      var t := After(host, config, mid, frames[n], outcomes[n]);
      var rows, more := RowsOf(s.lastId, outcomes[..n]), RowIf(mid.lastId, outcomes[n]);
      RowsAppend(s, rows, TasksOf(s.lastId, outcomes[..n]), mid, more, TaskIf(mid.lastId, outcomes[n]), t);
      RowsLast(s.lastId, outcomes, mid.lastId);
      TasksLast(s.lastId, outcomes, mid.lastId);
      assert Reach(host, config, s, frames, outcomes) == t;
    }
  }

  /**
    Over a whole run: every login and every message that opened is answered exactly once and in order, every
    new plain message becomes exactly one post, one sync is started for each login and one fan-out for each post, and
    nothing else is published, stored or started.
   */
  lemma RunAddsUp(host: Host, config: Config, s: State, frames: seq<Frame>, outcomes: seq<Outcome>)
    requires host.pubKey != [] && ClockFits(frames) && Follows(host, config, s, frames, outcomes)
    ensures var t := Reach(host, config, s, frames, outcomes);
      AddsUp(s, Gains(host, frames, outcomes), t)
        && AddsRows(s, RowsOf(s.lastId, outcomes), TasksOf(s.lastId, outcomes), t)
    ensures |Gains(host, frames, outcomes).answers| == CountAnswered(outcomes)
  {
    RunGains(host, config, s, frames, outcomes);
    RunRows(host, config, s, frames, outcomes);
  }

  lemma RowsLast(lastId: int, outcomes: seq<Outcome>, next: int)
    requires outcomes != [] && next == lastId + |RowsOf(lastId, outcomes[..|outcomes| - 1])|
    ensures var n := |outcomes| - 1;
      RowsOf(lastId, outcomes) == RowsOf(lastId, outcomes[..n]) + RowIf(next, outcomes[n])
  {
  }

  lemma TasksLast(lastId: int, outcomes: seq<Outcome>, next: int)
    requires outcomes != [] && next == lastId + |RowsOf(lastId, outcomes[..|outcomes| - 1])|
    ensures var n := |outcomes| - 1;
      TasksOf(lastId, outcomes) == TasksOf(lastId, outcomes[..n]) + TaskIf(next, outcomes[n])
  {
  }

  lemma RowsAppend(s: State, rows: seq<Store.Post>, tasks: seq<Task>, mid: State, more: seq<Store.Post>,
                   started: seq<Task>, t: State)
    requires AddsRows(s, rows, tasks, mid) && AddsRows(mid, more, started, t)
    ensures AddsRows(s, rows + more, tasks + started, t)
  {
  }

  // ---- background tasks ----

  /** A sync is of a client with a session, and a fan-out of a post with a timestamp that can be sent. */
  predicate Runnable(sessions: SessionMap, task: Task) {
    match task
    case SyncTask(pub, _) => pub in sessions
    case FanOutTask(post) => IsU32(post.ts)
  }

  ghost predicate TasksOk(s: State) {
    forall task :: task in s.spawned ==> Runnable(s.sessions, task)
  }

  /** A login opens a session, nothing else does, and sessions are never closed. */
  lemma SessionsStay(host: Host, config: Config, s: State, f: Frame, o: Outcome)
    requires host.pubKey != [] && IsU32(f.serverTs) && Possible(host, config, s, f, o)
    ensures After(host, config, s, f, o).sessions.Keys ==
      s.sessions.Keys + if o.LoggedIn? then {o.req.clientPubKey} else {}
  {
  }

  lemma StepKeepsTasks(host: Host, config: Config, s: State, f: Frame, o: Outcome, t: State)
    requires host.pubKey != [] && IsU32(f.serverTs) && Stepped(host, config, s, f, o, t) && TasksOk(s)
    ensures TasksOk(t)
  {
    SessionsStay(host, config, s, f, o);
    OneStep(host, config, s, f, o);
    if IsStored(o) {
      StoredFits(host, config, s, f, o);
    }
    forall task | task in t.spawned ensures Runnable(t.sessions, task) {
      assert task in s.spawned || task in TaskIf(s.lastId, o);
    }
  }

  lemma StoredFits(host: Host, config: Config, s: State, f: Frame, o: Outcome)
    requires host.pubKey != [] && Possible(host, config, s, f, o) && IsStored(o)
    ensures IsU32(o.h.msg.timestamp)
  {
    OpenedTxt(host, Decode(f.wire).value.payload, o.h);
  }

  // ---- who is heard ----

  lemma StepKeepsRoles(host: Host, config: Config, s: State, f: Frame, o: Outcome)
    requires host.pubKey != [] && IsU32(f.serverTs) && Possible(host, config, s, f, o) && RolesOk(s.sessions, s.logins)
    ensures var t := After(host, config, s, f, o); RolesOk(t.sessions, t.logins)
  {
    var t := After(host, config, s, f, o);
    match o
    case Named(ad) =>
      if ad.pubKey in s.sessions {
        TrackKeepsRoles(s.sessions, s.logins, s.logins, ad.pubKey, s.sessions[ad.pubKey].(name := ad.appData.name));
      }
    case Learnt(l) => TrackKeepsRoles(s.sessions, s.logins, t.logins, l.pub, t.sessions[l.pub]);
    case LoggedIn(req, _) => TrackKeepsRoles(s.sessions, s.logins, t.logins, req.clientPubKey,
                                             t.sessions[req.clientPubKey]);
    case Posted(h, _) => TrackKeepsRoles(s.sessions, s.logins, t.logins, h.pub, t.sessions[h.pub]);
    case _ =>
  }

  lemma {:induction false} RunKeepsRoles(host: Host, config: Config, s: State, frames: seq<Frame>,
                                         outcomes: seq<Outcome>)
    requires host.pubKey != [] && ClockFits(frames) && Follows(host, config, s, frames, outcomes)
    requires RolesOk(s.sessions, s.logins)
    ensures var t := Reach(host, config, s, frames, outcomes); RolesOk(t.sessions, t.logins)
    decreases |frames|
  {
    if frames != [] {
      var n := |frames| - 1;
      RunKeepsRoles(host, config, s, frames[..n], outcomes[..n]);
      StepKeepsRoles(host, config, Reach(host, config, s, frames[..n], outcomes[..n]), frames[n], outcomes[n]);
    }
  }

  /** A text message for this host that opens under the key of this client. */
  predicate MessageFrom(host: Host, f: Frame, pub: bytes) {
    match Decode(f.wire)
    case Failure(_) => false
    case Success(p) =>
      && p.payloadType == TYPE_TXT_MSG && |p.payload| > 1 && host.pubKey != [] && p.payload[0] == host.pubKey[0]
      && pub != [] && pub[0] == p.payload[1] && CanOpenTxt(host, p.payload, pub)
  }

  /**
    In any run every message that opens under the key of a client that has logged in by then is acknowledged: it is
    posted, under some such client's key, and answered once.
   */
  lemma EveryMessageIsPosted(host: Host, config: Config, s: State, frames: seq<Frame>, outcomes: seq<Outcome>, i: nat,
                             pub: bytes)
    requires host.pubKey != [] && ClockFits(frames) && Follows(host, config, s, frames, outcomes) && i < |frames|
    requires RolesOk(s.sessions, s.logins)
    requires LatestRole(s.logins + Gains(host, frames[..i], outcomes[..i]).logins, pub).Some?
    requires MessageFrom(host, frames[i], pub)
    ensures outcomes[i].Posted? && OpensTxt(host, Decode(frames[i].wire).value.payload, outcomes[i].h)
    ensures LatestRole(s.logins + Gains(host, frames[..i], outcomes[..i]).logins, outcomes[i].h.pub).Some?
    ensures |AnswerTo(host, frames[i], outcomes[i])| == 1
  {
    FollowsAt(host, config, s, frames, outcomes, i);
    var mid := Reach(host, config, s, frames[..i], outcomes[..i]);
    RunKeepsRoles(host, config, s, frames[..i], outcomes[..i]);
    assert mid.logins == s.logins + Gains(host, frames[..i], outcomes[..i]).logins by {
      RunAddsUp(host, config, s, frames[..i], outcomes[..i]);
    }
    assert LatestRole(mid.logins, pub).Some? ==> pub in mid.sessions;
    MessageIsPosted(host, config, mid, frames[i], outcomes[i], pub);
    var sender := outcomes[i].h.pub;
    assert LatestRole(mid.logins, sender).None? ==> sender !in mid.sessions;
  }

  lemma MessageIsPosted(host: Host, config: Config, s: State, f: Frame, o: Outcome, pub: bytes)
    requires host.pubKey != [] && IsU32(f.serverTs) && Possible(host, config, s, f, o)
    requires MessageFrom(host, f, pub) && pub in s.sessions
    ensures o.Posted? && OpensTxt(host, Decode(f.wire).value.payload, o.h) && o.h.pub in s.sessions
    ensures |AnswerTo(host, f, o)| == 1
  {
    var p := Decode(f.wire).value;
    CandidatesExactly(host, s.sessions, p, pub);
    assert PostPossible(host, config, s, p, f.at, o);
    OneStep(host, config, s, f, o);
  }

  // ---- which messages are stored ----

  /** This outcome accepted a message with this key: its address, and the hash of the bytes its sender hashes. */
  predicate Accepts(host: Host, o: Outcome, key: Recent.Key) {
    && o.Posted? && o.isNew && IsU32(o.h.msg.timestamp) && IsTxtType(o.h.msg.txtType)
    && var m := o.h.msg;
    key == (m.srcHash, host.c.sha256(Le4(m.timestamp) + [m.attempt % 4 + 4 * m.txtType] + m.text + o.h.pub)[..4])
  }

  ghost predicate AcceptedInRun(host: Host, frames: seq<Frame>, outcomes: seq<Outcome>, key: Recent.Key, cutoff: real)
    requires |frames| == |outcomes|
  {
    exists j :: 0 <= j < |outcomes| && Accepts(host, outcomes[j], key) && frames[j].at >= cutoff
  }

  lemma AcceptedSinceAppend(history: seq<Recent.Call>, more: seq<Recent.Call>, key: Recent.Key, cutoff: real)
    ensures Recent.AcceptedSince(history + more, key, cutoff)
      <==> Recent.AcceptedSince(history, key, cutoff) || Recent.AcceptedSince(more, key, cutoff)
  {
    if i :| 0 <= i < |history| && history[i].accepted && history[i].key == key && history[i].at >= cutoff {
      assert (history + more)[i] == history[i];
    }
    if i :| 0 <= i < |more| && more[i].accepted && more[i].key == key && more[i].at >= cutoff {
      assert (history + more)[|history| + i] == more[i];
    }
  }

  lemma {:induction false} CallsAccepted(host: Host, frames: seq<Frame>, outcomes: seq<Outcome>, key: Recent.Key,
                                         cutoff: real)
    requires |frames| == |outcomes|
    ensures Recent.AcceptedSince(Gains(host, frames, outcomes).calls, key, cutoff)
      <==> AcceptedInRun(host, frames, outcomes, key, cutoff)
    decreases |frames|
  {
    if frames != [] {
      var n := |frames| - 1;
      CallsAccepted(host, frames[..n], outcomes[..n], key, cutoff);
      AcceptedSinceAppend(Gains(host, frames[..n], outcomes[..n]).calls, CallOf(host, frames[n], outcomes[n]), key,
                          cutoff);
      OneCall(host, frames[n], outcomes[n], key, cutoff);
      InRunAppend(host, frames, outcomes, key, cutoff);
    }
  }

  lemma OneCall(host: Host, f: Frame, o: Outcome, key: Recent.Key, cutoff: real)
    ensures Recent.AcceptedSince(CallOf(host, f, o), key, cutoff) <==> Accepts(host, o, key) && f.at >= cutoff
  {
    if o.Posted? && IsU32(o.h.msg.timestamp) && IsTxtType(o.h.msg.txtType) {
      AckKeyBytes(host, o.h);
    }
    if Accepts(host, o, key) && f.at >= cutoff {
      assert CallOf(host, f, o)[0].accepted;
    }
  }

  lemma InRunAppend(host: Host, frames: seq<Frame>, outcomes: seq<Outcome>, key: Recent.Key, cutoff: real)
    requires |frames| == |outcomes| > 0
    ensures var n := |frames| - 1;
      AcceptedInRun(host, frames, outcomes, key, cutoff)
      <==>
      || AcceptedInRun(host, frames[..n], outcomes[..n], key, cutoff)
      || (Accepts(host, outcomes[n], key) && frames[n].at >= cutoff)
  {
    var n := |frames| - 1;
    if j :| 0 <= j < n && Accepts(host, outcomes[..n][j], key) && frames[..n][j].at >= cutoff {
      assert outcomes[j] == outcomes[..n][j];
    }
    if j :| 0 <= j < |outcomes| && Accepts(host, outcomes[j], key) && frames[j].at >= cutoff {
      assert j < n ==> outcomes[..n][j] == outcomes[j];
    }
  }

  /**
    In any run a posted message is new exactly when nothing from its address with its hash was accepted within the ttl,
    before the run or in it. What is hashed is timestamp, attempt and type bits, text, and the sender's key.
   */
  lemma FreshExactly(host: Host, config: Config, s: State, frames: seq<Frame>, outcomes: seq<Outcome>, i: nat)
    requires host.pubKey != [] && ClockFits(frames) && Follows(host, config, s, frames, outcomes)
    requires i < |frames| && outcomes[i].Posted?
    ensures var h := outcomes[i].h;
      && Decode(frames[i].wire).Success? && |Decode(frames[i].wire).value.payload| > 1
      && IsU32(h.msg.timestamp) && IsTxtType(h.msg.txtType)
      && var cutoff := frames[i].at - config.ttl;
      var m := h.msg;
      var key := (Decode(frames[i].wire).value.payload[1],
                  host.c.sha256(Le4(m.timestamp) + [m.attempt % 4 + 4 * m.txtType] + m.text + h.pub)[..4]);
      (outcomes[i].isNew <==>
        && !Recent.AcceptedSince(s.history, key, cutoff)
        && !AcceptedInRun(host, frames[..i], outcomes[..i], key, cutoff))
  {
    FreshByKey(host, config, s, frames, outcomes, i);
    AckKeyBytes(host, outcomes[i].h);
  }

  lemma FreshByKey(host: Host, config: Config, s: State, frames: seq<Frame>, outcomes: seq<Outcome>, i: nat)
    requires host.pubKey != [] && ClockFits(frames) && Follows(host, config, s, frames, outcomes)
    requires i < |frames| && outcomes[i].Posted?
    ensures var h := outcomes[i].h;
      && Decode(frames[i].wire).Success? && OpensTxt(host, Decode(frames[i].wire).value.payload, h)
      && |Decode(frames[i].wire).value.payload| > 1 && h.msg.srcHash == Decode(frames[i].wire).value.payload[1]
      && IsU32(h.msg.timestamp) && IsTxtType(h.msg.txtType)
      && var cutoff := frames[i].at - config.ttl;
      (outcomes[i].isNew <==>
        && !Recent.AcceptedSince(s.history, AckKey(host, h), cutoff)
        && !AcceptedInRun(host, frames[..i], outcomes[..i], AckKey(host, h), cutoff))
  {
    FollowsAt(host, config, s, frames, outcomes, i);
    RunAddsUp(host, config, s, frames[..i], outcomes[..i]);
    var h := outcomes[i].h;
    OpenedTxt(host, Decode(frames[i].wire).value.payload, h);
    AcceptedSinceAppend(s.history, Gains(host, frames[..i], outcomes[..i]).calls, AckKey(host, h),
                        frames[i].at - config.ttl);
    CallsAccepted(host, frames[..i], outcomes[..i], AckKey(host, h), frames[i].at - config.ttl);
  }

  /** The k-th post a run adds is the row of one stored message, with k stored before it. */
  lemma {:induction false} RowAt(lastId: int, outcomes: seq<Outcome>, k: nat) returns (i: nat)
    requires k < |RowsOf(lastId, outcomes)|
    ensures i < |outcomes| && IsStored(outcomes[i]) && RowsOf(lastId, outcomes)[k] == Row(lastId + k, outcomes[i].h)
    ensures |RowsOf(lastId, outcomes[..i])| == k
    decreases |outcomes|
  {
    var n := |outcomes| - 1;
    if k < |RowsOf(lastId, outcomes[..n])| {
      i := RowAt(lastId, outcomes[..n], k);
      assert outcomes[..n][..i] == outcomes[..i];
    } else {
      i := n;
    }
  }

  lemma {:induction false} RowsGrow(lastId: int, outcomes: seq<Outcome>, i: nat)
    requires i <= |outcomes|
    ensures |RowsOf(lastId, outcomes[..i])| <= |RowsOf(lastId, outcomes)|
    decreases |outcomes|
  {
    if i < |outcomes| {
      RowsGrow(lastId, outcomes[..|outcomes| - 1], i);
      assert outcomes[..|outcomes| - 1][..i] == outcomes[..i];
    } else {
      assert outcomes[..i] == outcomes;
    }
  }

  /**
    These rows come from two messages, the first received before the second; with one key, more than the ttl before.
   */
  ghost predicate RowsApart(host: Host, ttl: real, frames: seq<Frame>, outcomes: seq<Outcome>, a: Store.Post,
                            b: Store.Post)
    requires |frames| == |outcomes|
  {
    exists i: nat, j: nat :: i < j < |outcomes| && StoredApart(host, ttl, frames, outcomes, a, b, i, j)
  }

  ghost predicate StoredApart(host: Host, ttl: real, frames: seq<Frame>, outcomes: seq<Outcome>, a: Store.Post,
                              b: Store.Post, i: nat, j: nat)
    requires |frames| == |outcomes| && i < |outcomes| && j < |outcomes|
  {
    && StoredAs(outcomes[i], a) && StoredAs(outcomes[j], b)
    && (SameKey(host, outcomes[i].h.msg, a.author, outcomes[j].h.msg, b.author) ==> frames[j].at - frames[i].at > ttl)
  }

  predicate StoredAs(o: Outcome, post: Store.Post) {
    && IsStored(o) && IsU32(o.h.msg.timestamp) && IsTxtType(o.h.msg.txtType)
    && post.author == o.h.pub && post.ts == o.h.msg.timestamp && post.body == o.h.msg.text
  }

  lemma RowsInOrder(lastId: int, outcomes: seq<Outcome>, a: nat, b: nat) returns (i: nat, j: nat)
    requires a < b < |RowsOf(lastId, outcomes)|
    ensures i < j < |outcomes| && IsStored(outcomes[i]) && IsStored(outcomes[j])
    ensures RowsOf(lastId, outcomes)[a] == Row(lastId + a, outcomes[i].h)
    ensures RowsOf(lastId, outcomes)[b] == Row(lastId + b, outcomes[j].h)
  {
    i := RowAt(lastId, outcomes, a);
    j := RowAt(lastId, outcomes, b);
    var first := if j <= i then j else i;
    RowsGrow(lastId, outcomes[..i], first);
    assert outcomes[..i][..first] == outcomes[..first];
  }

  /** Two messages accepted in a run with one key were received more than the ttl apart. */
  lemma AcceptedApart(host: Host, config: Config, s: State, frames: seq<Frame>, outcomes: seq<Outcome>, i: nat, j: nat)
    requires host.pubKey != [] && ClockFits(frames) && Follows(host, config, s, frames, outcomes) && i < j < |frames|
    requires outcomes[i].Posted? && outcomes[i].isNew && outcomes[j].Posted? && outcomes[j].isNew
    ensures IsU32(outcomes[i].h.msg.timestamp) && IsTxtType(outcomes[i].h.msg.txtType)
    ensures IsU32(outcomes[j].h.msg.timestamp) && IsTxtType(outcomes[j].h.msg.txtType)
    ensures SameKey(host, outcomes[i].h.msg, outcomes[i].h.pub, outcomes[j].h.msg, outcomes[j].h.pub) ==>
      frames[j].at - frames[i].at > config.ttl
  {
    FreshByKey(host, config, s, frames, outcomes, i);
    FreshByKey(host, config, s, frames, outcomes, j);
    SameKeyExactly(host, outcomes[i].h, outcomes[j].h);
    AckKeyBytes(host, outcomes[j].h);
    if AckKey(host, outcomes[i].h) == AckKey(host, outcomes[j].h) {
      AckKeyBytes(host, outcomes[i].h);
      assert Accepts(host, outcomes[..j][i], AckKey(host, outcomes[j].h)) && frames[..j][i] == frames[i];
    }
  }

  lemma RowsOfApart(host: Host, config: Config, s: State, frames: seq<Frame>, outcomes: seq<Outcome>, i: nat, j: nat,
                    a: Store.Post, b: Store.Post)
    requires host.pubKey != [] && ClockFits(frames) && Follows(host, config, s, frames, outcomes)
    requires i < j < |outcomes| && IsStored(outcomes[i]) && IsStored(outcomes[j])
    requires a == Row(a.id - 1, outcomes[i].h) && b == Row(b.id - 1, outcomes[j].h)
    ensures RowsApart(host, config.ttl, frames, outcomes, a, b)
  {
    AcceptedApart(host, config, s, frames, outcomes, i, j);
    assert StoredApart(host, config.ttl, frames, outcomes, a, b, i, j);
  }

  /** Of any two posts a run adds, those with one source address and ACK hash were received more than the ttl apart. */
  lemma PostsOfRunApart(host: Host, config: Config, s: State, frames: seq<Frame>, outcomes: seq<Outcome>, a: nat,
                        b: nat)
    requires host.pubKey != [] && ClockFits(frames) && Follows(host, config, s, frames, outcomes)
    requires a < b < |RowsOf(s.lastId, outcomes)|
    ensures Reach(host, config, s, frames, outcomes).posts == s.posts + RowsOf(s.lastId, outcomes)
    ensures RowsApart(host, config.ttl, frames, outcomes, RowsOf(s.lastId, outcomes)[a], RowsOf(s.lastId, outcomes)[b])
  {
    RunRows(host, config, s, frames, outcomes);
    var i, j := RowsInOrder(s.lastId, outcomes, a, b);
    RowsOfApart(host, config, s, frames, outcomes, i, j, RowsOf(s.lastId, outcomes)[a], RowsOf(s.lastId, outcomes)[b]);
  }

  // ---- stored posts, over the life of the store ----

  /** This row is that message, which its call found new. */
  ghost predicate FiledAt(host: Host, f: Filing, history: seq<Recent.Call>, post: Store.Post) {
    && f.call < |history| && history[f.call].accepted
    && IsU32(f.h.msg.timestamp) && IsTxtType(f.h.msg.txtType) && history[f.call].key == AckKey(host, f.h)
    && post.author == f.h.pub && post.ts == f.h.msg.timestamp && post.body == f.h.msg.text
  }

  /** The last rows are exactly the filed messages, in the order of their calls. */
  ghost predicate FiledOk(host: Host, filed: seq<Filing>, history: seq<Recent.Call>, posts: seq<Store.Post>) {
    && |filed| <= |posts|
    && (forall i :: 0 <= i < |filed| ==> FiledAt(host, filed[i], history, posts[|posts| - |filed| + i]))
    && (forall i, j :: 0 <= i < j < |filed| ==> filed[i].call < filed[j].call)
  }

  ghost predicate TimestampsFit(posts: seq<Store.Post>) {
    forall p :: p in posts ==> IsU32(p.ts)
  }

  ghost predicate PostsSound(host: Host, filed: seq<Filing>, history: seq<Recent.Call>, posts: seq<Store.Post>) {
    TimestampsFit(posts) && FiledOk(host, filed, history, posts)
  }

  ghost predicate FiledBelow(filed: seq<Filing>, call: nat) {
    forall i :: 0 <= i < |filed| ==> filed[i].call < call
  }

  lemma FiledGrows(host: Host, filed: seq<Filing>, history: seq<Recent.Call>, posts: seq<Store.Post>, call: Recent.Call)
    requires PostsSound(host, filed, history, posts)
    ensures PostsSound(host, filed, history + [call], posts) && FiledBelow(filed, |history|)
  {
    var more := history + [call];
    forall i | 0 <= i < |filed| ensures FiledAt(host, filed[i], more, posts[|posts| - |filed| + i]) {
      assert more[filed[i].call] == history[filed[i].call];
    }
  }

  lemma FiledAppend(host: Host, filed: seq<Filing>, history: seq<Recent.Call>, posts: seq<Store.Post>, f: Filing,
                    post: Store.Post)
    requires PostsSound(host, filed, history, posts) && FiledAt(host, f, history, post) && FiledBelow(filed, f.call)
    ensures PostsSound(host, filed + [f], history, posts + [post])
  {
    var filed', posts' := filed + [f], posts + [post];
    forall i | 0 <= i < |filed'| ensures FiledAt(host, filed'[i], history, posts'[|posts'| - |filed'| + i]) {
      if i < |filed| {
        assert posts'[|posts'| - |filed'| + i] == posts[|posts| - |filed| + i];
      }
    }
  }

  /** Two stored posts with one source address and ACK hash were accepted more than the ttl apart. */
  lemma StoredPostsApart(host: Host, ttl: real, filed: seq<Filing>, history: seq<Recent.Call>, posts: seq<Store.Post>,
                         i: nat, j: nat)
    requires FiledOk(host, filed, history, posts) && Recent.Faithful(history, ttl) && i < j < |filed|
    ensures var n := |posts| - |filed|;
      && FiledAt(host, filed[i], history, posts[n + i]) && FiledAt(host, filed[j], history, posts[n + j])
      && (SameKey(host, filed[i].h.msg, posts[n + i].author, filed[j].h.msg, posts[n + j].author) ==>
            history[filed[j].call].at - history[filed[i].call].at > ttl)
  {
    Recent.AllApart(history, ttl);
    var n := |posts| - |filed|;
    assert FiledAt(host, filed[i], history, posts[n + i]) && FiledAt(host, filed[j], history, posts[n + j]);
    assert Recent.AcceptedApart(history, filed[i].call, filed[j].call, ttl);
    SameKeyExactly(host, filed[i].h, filed[j].h);
  }

  // ---- pushes ----

  datatype Push = Push(pub: bytes, post: Store.Post)

  ghost predicate CanPush(host: Host, sessions: SessionMap, p: Push) {
    p.pub in sessions && p.pub != [] && HasSecret(host, p.pub) && RouteOk(sessions[p.pub]) && host.pubKey != []
      && IsU32(p.post.ts)
  }

  function PushJobOf(host: Host, config: Config, s: Session, p: Push): Room.PushJob
    requires HasSecret(host, p.pub)
  {
    Room.PushJob(host.c.ecdh(host.seed, p.pub).value, p.pub, host.pubKey, p.post.ts, p.post.author, p.post.body,
                 s.path, s.hashSize, config.directAttempts, config.floodAttempts)
  }

  /** What pushing one post to one client publishes, and how it ends, for the given outcomes of its waits. */
  ghost function PushOutcome(host: Host, config: Config, sessions: SessionMap, p: Push, acked: nat -> bool): Delivery
    requires CanPush(host, sessions, p)
  {
    Room.PushDelivery(host.c, PushJobOf(host, config, sessions[p.pub], p), acked)
  }

  ghost predicate AllPushable(host: Host, sessions: SessionMap, ps: seq<Push>) {
    forall i :: 0 <= i < |ps| ==> CanPush(host, sessions, ps[i])
  }

  /** The i-th of a series of pushes. */
  ghost function Nth(host: Host, config: Config, sessions: SessionMap, ps: seq<Push>, acked: nat -> nat -> bool,
                     i: nat): Delivery
    requires AllPushable(host, sessions, ps) && i < |ps|
  {
    PushOutcome(host, config, sessions, ps[i], acked(i))
  }

  predicate IsAcked(d: Delivery) {
    d.result.Success? && d.result.value.acked
  }

  /** What pushes touch: the packets published, and the clients' cursors. */
  datatype Line = Line(published: seq<bytes>, clients: Store.Clients)

  /** One push: the wires of its delivery go out, and an acknowledged one moves its client's cursor. */
  ghost function PushOne(line: Line, p: Push, d: Delivery): Line {
    Line(line.published + d.wires,
         if IsAcked(d) then Store.Applied(line.clients, Store.Acked(p.pub, p.post.ts)) else line.clients)
  }

  /** The first n pushes, one after another. */
  ghost function PushMany(host: Host, config: Config, sessions: SessionMap, line: Line, ps: seq<Push>,
                          acked: nat -> nat -> bool, n: nat): Line
    requires AllPushable(host, sessions, ps) && n <= |ps|
  {
    if n == 0 then line
    else PushOne(PushMany(host, config, sessions, line, ps, acked, n - 1), ps[n - 1],
                 Nth(host, config, sessions, ps, acked, n - 1))
  }

  lemma PushManyMore(host: Host, config: Config, sessions: SessionMap, line: Line, ps: seq<Push>,
                     acked: nat -> nat -> bool, n: nat)
    requires AllPushable(host, sessions, ps) && n < |ps|
    ensures CanPush(host, sessions, ps[n])
    ensures PushMany(host, config, sessions, line, ps, acked, n + 1)
         == PushOne(PushMany(host, config, sessions, line, ps, acked, n), ps[n],
                    PushOutcome(host, config, sessions, ps[n], acked(n)))
  {
  }

  ghost predicate NoneFails(host: Host, config: Config, sessions: SessionMap, ps: seq<Push>, acked: nat -> nat -> bool,
                            n: nat)
    requires AllPushable(host, sessions, ps) && n <= |ps|
  {
    forall i :: 0 <= i < n ==> Nth(host, config, sessions, ps, acked, i).result.Success?
  }

  /**
    Where a series that stops at the first failure has got to: n pushes made, of which only the last can have failed.
   */
  ghost predicate Going(host: Host, config: Config, sessions: SessionMap, ps: seq<Push>, acked: nat -> nat -> bool,
                        n: nat, failed: bool)
    requires AllPushable(host, sessions, ps) && n <= |ps|
  {
    if failed then
      n > 0 && NoneFails(host, config, sessions, ps, acked, n - 1)
        && Nth(host, config, sessions, ps, acked, n - 1).result.Failure?
    else NoneFails(host, config, sessions, ps, acked, n)
  }

  lemma NoneFailsMore(host: Host, config: Config, sessions: SessionMap, ps: seq<Push>, acked: nat -> nat -> bool,
                      n: nat)
    requires AllPushable(host, sessions, ps) && n < |ps| && Going(host, config, sessions, ps, acked, n, false)
    ensures CanPush(host, sessions, ps[n])
    ensures Going(host, config, sessions, ps, acked, n + 1,
                  PushOutcome(host, config, sessions, ps[n], acked(n)).result.Failure?)
  {
  }

  /** Push attempts are configured so that at least one is always made. */
  predicate PushesConfigured(config: Config) {
    config.directAttempts >= 0 && config.floodAttempts > 0
  }

  /** Over a session's route the encoder refuses no attempt, so a push ends acknowledged or with its last attempt. */
  lemma PushNeverFails(host: Host, config: Config, sessions: SessionMap, p: Push, acked: nat -> bool)
    requires CanPush(host, sessions, p) && PushesConfigured(config)
    ensures var d := PushOutcome(host, config, sessions, p, acked);
      d.result.Success? && (IsAcked(d) <==> acked(d.result.value.attempt)) && |d.wires| == d.result.value.attempt + 1
  {
    var job := PushJobOf(host, config, sessions[p.pub], p);
    forall i | 0 <= i < |Room.PushShots(host.c, job)| ensures Room.PushShots(host.c, job)[i].Success? {
      Room.UsablePushNeverFails(host.c, job, i);
    }
    var d := PushOutcome(host, config, sessions, p, acked);
    RetrySchedule(Room.PushShots(host.c, job), acked, d.wires, d.result);
  }

  /** So a series of pushes goes all the way. */
  lemma SeriesNeverFails(host: Host, config: Config, sessions: SessionMap, ps: seq<Push>, acked: nat -> nat -> bool,
                         n: nat, failed: bool)
    requires AllPushable(host, sessions, ps) && n <= |ps| && Going(host, config, sessions, ps, acked, n, failed)
    requires PushesConfigured(config)
    ensures !failed
  {
    if n > 0 {
      PushNeverFails(host, config, sessions, ps[n - 1], acked(n - 1));
    }
  }

  function PushesTo(pub: bytes, posts: seq<Store.Post>): (ps: seq<Push>)
    ensures |ps| == |posts| && forall i :: 0 <= i < |ps| ==> ps[i] == Push(pub, posts[i])
  {
    seq(|posts|, i requires 0 <= i < |posts| => Push(pub, posts[i]))
  }

  function PushesOf(targets: seq<bytes>, post: Store.Post): (ps: seq<Push>)
    ensures |ps| == |targets| && forall i :: 0 <= i < |ps| ==> ps[i] == Push(targets[i], post)
  {
    seq(|targets|, i requires 0 <= i < |targets| => Push(targets[i], post))
  }

  // ---- which acknowledgements of a push are heard ----

  /** An attempt of a push from this room to a client that shares a secret with it and can read it. */
  ghost predicate Pushed(host: Host, j: Room.PushJob, i: nat, clientSeed: bytes) {
    j.roomPubKey == host.pubKey && Room.PushLinked(host.c, j, i, host.seed, clientSeed) && NulFree(j.text)
  }

  /** Every attempt of a push over a session's route is one, unless the route is too long to decode. */
  lemma PushIsPushed(host: Host, config: Config, sessions: SessionMap, p: Push, i: nat, clientSeed: bytes)
    requires CanPush(host, sessions, p) && config.directAttempts >= 0 && config.floodAttempts >= 0
    requires i < |Room.PushAttempts(PushJobOf(host, config, sessions[p.pub], p))|
    requires |sessions[p.pub].path| <= MAX_PATH_SIZE && |p.post.author| == PUB_KEY_SIZE && NulFree(p.post.body)
    requires Agree(host.c, host.seed, host.pubKey, clientSeed, p.pub)
    ensures Pushed(host, PushJobOf(host, config, sessions[p.pub], p), i, clientSeed)
  {
    Room.UsablePushNeverFails(host.c, PushJobOf(host, config, sessions[p.pub], p), i);
  }

  /** What the k-th packet of a push is: a route along the session's, or a flood, and the post itself, sealed. */
  lemma PushedOnAir(host: Host, config: Config, sessions: SessionMap, p: Push, acked: nat -> bool, k: nat, plain: bytes)
    requires CanPush(host, sessions, p) && PushesConfigured(config)
    requires |sessions[p.pub].path| <= MAX_PATH_SIZE && |p.post.author| == PUB_KEY_SIZE
    requires k < |PushOutcome(host, config, sessions, p, acked).wires|
    requires plain == Le4(p.post.ts) + [k % 4 + 8] + p.post.author[..4] + p.post.body + [0]
    ensures var route, wire := sessions[p.pub], PushOutcome(host, config, sessions, p, acked).wires[k];
      var payload := [p.pub[0], host.pubKey[0]] + Seal(host.c, host.c.ecdh(host.seed, p.pub).value, plain);
      Decode(wire) == Success(
        if route.path != [] && k < config.directAttempts then
          Packet(DIRECT, TYPE_TXT_MSG, 0, None, route.path, payload, route.hashSize)
        else Packet(FLOOD, TYPE_TXT_MSG, 0, None, [], payload, 1))
  {
    PushIsDelivery(host, config, sessions, p, acked);
    var j := PushJobOf(host, config, sessions[p.pub], p);
    Room.PushOnAir(host.c, j, k);
  }

  lemma PushIsDelivery(host: Host, config: Config, sessions: SessionMap, p: Push, acked: nat -> bool)
    requires CanPush(host, sessions, p) && PushesConfigured(config)
    ensures var j, d := PushJobOf(host, config, sessions[p.pub], p), PushOutcome(host, config, sessions, p, acked);
      Room.PushShots(host.c, j) != [] && Delivered(Room.PushShots(host.c, j), acked, d.wires, d.result)
  {
  }

  /** A push of which no attempt is acknowledged makes all that are configured. */
  lemma UnackedPush(host: Host, config: Config, sessions: SessionMap, p: Push, acked: nat -> bool)
    requires CanPush(host, sessions, p) && PushesConfigured(config) && forall k :: !acked(k)
    ensures |PushOutcome(host, config, sessions, p, acked).wires| ==
      (if sessions[p.pub].path == [] then 0 else config.directAttempts) + config.floodAttempts
  {
    PushNeverFails(host, config, sessions, p, acked);
    PushIsDelivery(host, config, sessions, p, acked);
  }

  /** However the k-th packet of a push is relayed to the client, it reads the post in it. */
  lemma PushReads(host: Host, config: Config, sessions: SessionMap, p: Push, acked: nat -> bool, k: nat,
                  clientSeed: bytes, got: Packet)
    requires CanPush(host, sessions, p) && PushesConfigured(config)
    requires |sessions[p.pub].path| <= MAX_PATH_SIZE && |p.post.author| == PUB_KEY_SIZE && NulFree(p.post.body)
    requires Agree(host.c, host.seed, host.pubKey, clientSeed, p.pub)
    requires k < |PushOutcome(host, config, sessions, p, acked).wires|
    requires Arrives(PushOutcome(host, config, sessions, p, acked).wires[k], got)
    ensures Room.TryDecryptPush(host.c, got.payload, host.c.ecdh(clientSeed, host.pubKey).value) ==
      Some(Room.RoomPush(p.post.ts, k % 4, p.post.author[..4], p.post.body))
  {
    PushIsDelivery(host, config, sessions, p, acked);
    PushIsPushed(host, config, sessions, p, k, clientSeed);
    var j := PushJobOf(host, config, sessions[p.pub], p);
    CutNulIdentity(p.post.body);
    Room.PushAttemptArrives(host.c, j, k, host.seed, clientSeed, got);
  }

  /** The acknowledgement the client returns for that attempt, of which this packet reached it. */
  ghost function ClientReply(host: Host, j: Room.PushJob, i: nat, clientSeed: bytes, got: Packet): Packet
    requires Pushed(host, j, i, clientSeed) && Arrives(Room.PushShots(host.c, j)[i].value.wire, got)
  {
    Room.PushAckAgreement(host.c, j, i, host.seed, clientSeed, got, got);
    AckReply(host.c, host.c.ecdh(clientSeed, j.roomPubKey).value, PathHash(j.roomPubKey), j.destPubKey,
             Room.PushShots(host.c, j)[i].value.ackHash, got)
  }

  /** However it is relayed, it carries the awaited hash, in an ACK or in a PATH that says who it is from. */
  lemma ReplyAddressed(host: Host, j: Room.PushJob, i: nat, clientSeed: bytes, got: Packet, back: Packet,
                       sessions: SessionMap)
    requires Pushed(host, j, i, clientSeed) && Arrives(Room.PushShots(host.c, j)[i].value.wire, got)
    requires Relayed(ClientReply(host, j, i, clientSeed, got), back) && host.pubKey != [] && j.destPubKey in sessions
    ensures AckCarried(host.c, back, j.secret) == Some(Room.PushShots(host.c, j)[i].value.ackHash)
    ensures
      || back.payloadType == TYPE_ACK
      || (back.payloadType == TYPE_PATH && j.destPubKey in Candidates(host, sessions, back))
  {
    Room.PushAckAgreement(host.c, j, i, host.seed, clientSeed, got, back);
    AckReplyKind(host.c, j.secret, PathHash(j.roomPubKey), j.destPubKey, Room.PushShots(host.c, j)[i].value.ackHash,
                 got);
  }

  /** A plain ACK resolves the wait for its hash. */
  lemma AckFrameResolves(host: Host, config: Config, s: State, f: Frame, o: Outcome, back: Packet, hash: bytes)
    requires host.pubKey != [] && IsU32(f.serverTs) && Possible(host, config, s, f, o)
    requires Decode(f.wire) == Success(back) && back.payloadType == TYPE_ACK && ParseAck(back.payload) == Some(hash)
    ensures After(host, config, s, f, o).acks == AckTable.After(s.acks, AckTable.Resolve(hash))
  {
    assert o == Acked(hash);
  }

  /** A PATH from a client resolves the wait for the hash it bundles, when no other session's key opens it. */
  lemma PathFrameResolves(host: Host, config: Config, s: State, f: Frame, o: Outcome, back: Packet, pub: bytes,
                          hash: bytes)
    requires host.pubKey != [] && IsU32(f.serverTs) && Possible(host, config, s, f, o) && HasSecret(host, pub)
    requires Decode(f.wire) == Success(back) && back.payloadType == TYPE_PATH
    requires AckCarried(host.c, back, host.c.ecdh(host.seed, pub).value) == Some(hash)
    requires pub in Candidates(host, s.sessions, back)
    requires forall q :: q in Candidates(host, s.sessions, back) && q != pub ==> !CanOpenPath(host, back.payload, q)
    ensures After(host, config, s, f, o).acks == AckTable.After(s.acks, AckTable.Resolve(hash))
  {
    assert PathPossible(host, s, back, o) && CanOpenPath(host, back.payload, pub);
    assert o.Learnt? && o.l.pub == pub;
  }

  /** Either kind of acknowledgement resolves the wait for the hash it carries. */
  lemma AckResolves(host: Host, config: Config, s: State, f: Frame, o: Outcome, back: Packet, pub: bytes, hash: bytes)
    requires host.pubKey != [] && IsU32(f.serverTs) && Possible(host, config, s, f, o) && HasSecret(host, pub)
    requires Decode(f.wire) == Success(back)
    requires AckCarried(host.c, back, host.c.ecdh(host.seed, pub).value) == Some(hash)
    requires
      || back.payloadType == TYPE_ACK
      || (back.payloadType == TYPE_PATH && pub in Candidates(host, s.sessions, back))
    requires forall q :: q in Candidates(host, s.sessions, back) && q != pub ==> !CanOpenPath(host, back.payload, q)
    ensures After(host, config, s, f, o).acks == AckTable.After(s.acks, AckTable.Resolve(hash))
  {
    if back.payloadType == TYPE_ACK {
      AckFrameResolves(host, config, s, f, o, back, hash);
    } else {
      PathFrameResolves(host, config, s, f, o, back, pub, hash);
    }
  }

  /**
    Either acknowledgement of a push confirms it, unlike one of an echo, whatever repeaters the push and the
    acknowledgement passed: a plain ACK, and a PATH too, as long as no other session at the client's address has a key
    that opens it.
   */
  lemma PushConfirmed(host: Host, config: Config, s: State, j: Room.PushJob, i: nat, clientSeed: bytes, got: Packet,
                      back: Packet, f: Frame, o: Outcome, id: nat)
    requires host.pubKey != [] && IsU32(f.serverTs) && Pushed(host, j, i, clientSeed)
    requires Arrives(Room.PushShots(host.c, j)[i].value.wire, got)
    requires Relayed(ClientReply(host, j, i, clientSeed, got), back) && Decode(f.wire) == Success(back)
    requires Possible(host, config, s, f, o) && j.destPubKey in s.sessions && AckTable.Inv(s.acks)
    requires forall q :: q in Candidates(host, s.sessions, back) && q != j.destPubKey ==>
      !CanOpenPath(host, back.payload, q)
    requires id in s.acks.waits
    requires s.acks.waits[id] == AckTable.Wait(Room.PushShots(host.c, j)[i].value.ackHash, AckTable.Pending)
    ensures var t := After(host, config, s, f, o);
      id in t.acks.waits && t.acks.waits[id].phase == AckTable.Resolved
  {
    var hash := Room.PushShots(host.c, j)[i].value.ackHash;
    ReplyAddressed(host, j, i, clientSeed, got, back, s.sessions);
    AckResolves(host, config, s, f, o, back, j.destPubKey, hash);
    AckTable.ResolveWakesAll(s.acks, hash);
  }

  // ---- what the store knows ----

  /** The clients table knows every session, with its role. */
  ghost predicate RolesStored(sessions: SessionMap, clients: Store.Clients) {
    forall p :: p in sessions ==> p in clients && clients[p].isAdmin == sessions[p].isAdmin
  }

  lemma RenameKeepsRoles(sessions: SessionMap, clients: Store.Clients, pub: bytes, name: bytes)
    ensures RolesStored(sessions, clients) ==> RolesStored(Renamed(sessions, pub, name), clients)
  {
  }

  lemma CursorKeepsRoles(sessions: SessionMap, clients: Store.Clients, pub: bytes, ts: int)
    ensures RolesStored(sessions, clients) ==> RolesStored(sessions, Store.Applied(clients, Store.Acked(pub, ts)))
  {
  }

  /** Pushes move cursors and nothing else in the clients table. */
  lemma {:induction false} PushesKeepRoles(host: Host, config: Config, sessions: SessionMap, line: Line, ps: seq<Push>,
                                           acked: nat -> nat -> bool, n: nat)
    requires AllPushable(host, sessions, ps) && n <= |ps| && RolesStored(sessions, line.clients)
    ensures RolesStored(sessions, PushMany(host, config, sessions, line, ps, acked, n).clients)
  {
    if n > 0 {
      PushesKeepRoles(host, config, sessions, line, ps, acked, n - 1);
      var before := PushMany(host, config, sessions, line, ps, acked, n - 1);
      CursorKeepsRoles(sessions, before.clients, ps[n - 1].pub, ps[n - 1].post.ts);
    }
  }
}
