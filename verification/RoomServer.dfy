/** The room server (protocol.py): one handler per packet type over sessions, caches, waiters and the store. */
module RoomServers {
  import opened Bytes
  import opened Wrappers
  import opened Packets
  import opened Crypto
  import opened Messaging
  import opened Inbound
  import opened Sessions
  import opened RoomStates
  import Advert
  import AckTable
  import Recent
  import Room
  import Store

  /** A judged call keeps the duplicate cache sound, and is new iff no call with its key was accepted within the ttl. */
  lemma CallKeepsCache(recent: Recent.Cache, history: seq<Recent.Call>, lastNow: real, ttl: real, key: Recent.Key,
                       now: real)
    requires CacheSound(recent, history, lastNow, ttl) && now >= lastNow
    ensures CacheSound(Recent.Remembered(recent, key, now, ttl), Recent.Recorded(recent, history, key, now, ttl), now,
                       ttl)
    ensures Recent.IsNew(recent, key, now, ttl) <==> !Recent.AcceptedSince(history, key, now - ttl)
  {
    Recent.RememberRefines(recent, history, lastNow, ttl, key, now);
    Recent.RecordFaithful(recent, history, lastNow, ttl, key, now);
  }

  /** Parts of a server's state, as its invariant reads them. */
  datatype Roster = Roster(sessions: SessionMap, names: map<bytes, bytes>, index: HashIndex, logins: seq<Login>)
  datatype Memory = Memory(recent: Recent.Cache, history: seq<Recent.Call>, lastNow: real)
  datatype Shelf = Shelf(filed: seq<Filing>, history: seq<Recent.Call>, posts: seq<Store.Post>)
  datatype Rows = Rows(sessions: SessionMap, clients: Store.Clients)

  ghost predicate RosterSound(host: Host, r: Roster) {
    SessionsOk(host, r.sessions, r.names, r.index, r.logins)
  }

  ghost predicate MemorySound(m: Memory, ttl: real) {
    CacheSound(m.recent, m.history, m.lastNow, ttl)
  }

  ghost predicate ShelfSound(host: Host, s: Shelf) {
    PostsSound(host, s.filed, s.history, s.posts)
  }

  ghost predicate RowsSound(r: Rows) {
    RolesStored(r.sessions, r.clients)
  }

  class RoomServer {
    const host: Host
    const config: Config
    const store: Store.RoomStore
    const waiters: AckTable.AckWaiters
    var sessions: SessionMap
    var byHash: HashIndex
    var names: map<bytes, bytes>
    var advertTs: map<bytes, int>
    var recent: Recent.Cache
    var published: seq<bytes>
    var spawned: seq<Task>
    /** Accepted logins; calls of remember_message, and the clock at the last one; the messages stored as posts. */
    ghost var logins: seq<Login>
    ghost var history: seq<Recent.Call>
    ghost var lastNow: real
    ghost var filed: seq<Filing>

    constructor (host: Host, config: Config, store: Store.RoomStore, now: real)
      requires host.pubKey != [] && store.Valid() && TimestampsFit(store.posts)
      ensures Valid() && fresh(this) && fresh(waiters) && this.store == store && this.host == host
      ensures this.config == config
      ensures Now() ==
        State(map[], map[], map[], [], [], store.posts, store.lastId, store.clients, AckTable.IDLE, [], [], [])
      ensures lastNow == now
    {
      this.host, this.config, this.store := host, config, store;
      waiters := new AckTable.AckWaiters();
      sessions, byHash, names, advertTs, recent := map[], map[], map[], map[], map[];
      published, spawned := [], [];
      logins, history, lastNow, filed := [], [], now, [];
    }

    /** The state a step starts from and ends in. */
    ghost function Now(): State
      reads this, store, waiters
    {
      State(sessions, names, advertTs, published, spawned, store.posts, store.lastId, store.clients, waiters.Current(),
            logins, history, filed)
    }

    ghost function TheRoster(): Roster
      reads this`sessions, this`names, this`byHash, this`logins
    {
      Roster(sessions, names, byHash, logins)
    }

    ghost function TheMemory(): Memory
      reads this`recent, this`history, this`lastNow
    {
      Memory(recent, history, lastNow)
    }

    ghost function TheShelf(): Shelf
      reads this`history, this`filed, store`posts
    {
      Shelf(filed, history, store.posts)
    }

    ghost function TheRows(): Rows
      reads this`sessions, store`clients
    {
      Rows(sessions, store.clients)
    }

    /** Index, roles, names and routes. */
    ghost predicate RosterOk()
      reads this`sessions, this`names, this`byHash, this`logins
    {
      host.pubKey != [] && RosterSound(host, TheRoster())
    }

    ghost predicate CacheOk()
      reads this`recent, this`history, this`lastNow
    {
      MemorySound(TheMemory(), config.ttl)
    }

    ghost predicate PostsOk()
      reads this`history, this`filed, store`posts, store`lastId
    {
      store.Valid() && ShelfSound(host, TheShelf())
    }

    ghost predicate ClientsOk()
      reads this`sessions, store`clients
    {
      RowsSound(TheRows())
    }

    /** All of that and the waiter table. */
    ghost predicate Sound()
      reads this, store, waiters
    {
      RosterOk() && CacheOk() && PostsOk() && ClientsOk() && AckTable.Inv(waiters.Current())
    }

    /** The invariant: besides, every background task started can run, now and whenever its turn comes. */
    ghost predicate Valid()
      reads this, store, waiters
    {
      Sound() && TasksOk(Now())
    }

    /** sessions_at is the linear scan; every client has the role of its latest login and a route that encodes. */
    lemma SessionFacts(pub: bytes)
      requires RosterOk() && pub in sessions
      ensures pub != [] && pub in Found(byHash, pub[0]) && Found(byHash, pub[0]) == Scan(sessions, pub[0])
      ensures LatestRole(logins, pub) == Some(sessions[pub].isAdmin)
      ensures SessionOk(host, names, pub, sessions[pub]) && RouteOk(sessions[pub])
    {
      assert SessionOk(host, names, pub, sessions[pub]);
      assert Found(byHash, pub[0]) == Scan(sessions, pub[0]);
      assert LatestRole(logins, pub).None? ==> pub !in sessions;
    }

    /**
      At any time in the life of a server, two posts it stored with one source address and ACK hash are more than the
      ttl apart.
     */
    lemma PostsApart(i: nat, j: nat)
      requires Valid() && i < j < |filed|
      ensures var n := |store.posts| - |filed|;
        && n >= 0 && FiledAt(host, filed[i], history, store.posts[n + i])
          && FiledAt(host, filed[j], history, store.posts[n + j])
        && (SameKey(host, filed[i].h.msg, store.posts[n + i].author, filed[j].h.msg, store.posts[n + j].author) ==>
              history[filed[j].call].at - history[filed[i].call].at > config.ttl)
    {
      StoredPostsApart(host, config.ttl, filed, history, store.posts, i, j);
    }

    method SessionsAt(h: byte) returns (list: seq<bytes>)
      requires RosterOk()
      ensures forall p :: p in list <==> p in Scan(sessions, h)
      ensures |list| == |Scan(sessions, h)|
      ensures forall p :: p in list ==> p in sessions && HasSecret(host, p)
    {
      list := [];
      assert Found(byHash, h) == Scan(sessions, h);
      var rest := Found(byHash, h);
      while rest != {}
        invariant rest <= Scan(sessions, h)
        invariant forall p :: p in list <==> p in Scan(sessions, h) - rest
        invariant |list| + |rest| == |Scan(sessions, h)|
        decreases rest
      {
        var p :| p in rest;
        rest := rest - {p};
        list := list + [p];
      }
      forall p | p in list ensures p in sessions && HasSecret(host, p) {
        assert p in Scan(sessions, h);
        assert SessionOk(host, names, p, sessions[p]);
      }
    }

    // ---- adverts ----

    /** Names a client, in the name table and in its session if it has one. */
    method Rename(pub: bytes, name: bytes)
      requires RosterOk() && |pub| == PUB_KEY_SIZE
      modifies this`names, this`sessions
      ensures RosterOk()
      ensures names == old(names)[pub := name]
      ensures sessions == Renamed(old(sessions), pub, name)
    {
      RenameKeepsSessions(host, sessions, names, byHash, logins, pub, name);
      names := names[pub := name];
      if pub in sessions {
        sessions := sessions[pub := sessions[pub].(name := name)];
      }
    }

    /** Only the newest signed advert of each other node counts: recorded timestamps never go back. */
    method HandleAdvert(packet: Packet) returns (o: Outcome)
      requires Sound()
      modifies this`names, this`sessions, this`advertTs
      ensures Sound()
      ensures AdvertStep(host, old(Now()), packet, o, Now())
      ensures forall p :: p in old(advertTs) ==> p in advertTs && advertTs[p] >= old(advertTs)[p]
    {
      var ad := Advertised(host, packet);
      if ad.None? || Stale(advertTs, ad.value) {
        return Ignored;
      }
      TakeAdvert(ad.value);
      return Named(ad.value);
    }

    method TakeAdvert(ad: Advert.Advertisement)
      requires Sound() && |ad.pubKey| == PUB_KEY_SIZE
      modifies this`names, this`sessions, this`advertTs
      ensures Sound() && Now() == AfterAdvert(old(Now()), ad)
    {
      advertTs := advertTs[ad.pubKey := ad.timestamp];
      if ad.appData.name != [] {
        RenameKeepsRoles(sessions, store.clients, ad.pubKey, ad.appData.name);
        Rename(ad.pubKey, ad.appData.name);
      }
    }

    // ---- ACK and PATH packets ----

    method Resolve(hash: bytes)
      requires AckTable.Inv(waiters.Current())
      modifies waiters
      ensures AckTable.Inv(waiters.Current())
      ensures waiters.Current() == AckTable.After(old(waiters.Current()), AckTable.Resolve(hash))
    {
      AckTable.StepKeepsInv(waiters.Current(), AckTable.Resolve(hash));
      var any := waiters.ResolveAck(hash);
    }

    method HandleAck(packet: Packet) returns (o: Outcome)
      requires Sound()
      modifies waiters
      ensures Sound()
      ensures AckPossible(packet, o)
      ensures Now() == old(Now()).(acks :=
        if o.Acked? then AckTable.After(old(waiters.Current()), AckTable.Resolve(o.hash)) else old(waiters.Current()))
    {
      var ack := ParseAck(packet.payload);
      if ack.None? {
        return Ignored;
      }
      Resolve(ack.value);
      return Acked(ack.value);
    }

    /** A session at the sender's address whose key opens the PATH message. */
    method OpenPath(packet: Packet) returns (r: Option<LearnedPath>)
      requires RosterOk()
      ensures r.Some? ==> r.value.pub in Candidates(host, sessions, packet) && OpensPath(host, packet.payload, r.value)
      ensures r.None? ==> forall p :: p in Candidates(host, sessions, packet) ==> !CanOpenPath(host, packet.payload, p)
    {
      if !Addressed(host, packet) || |packet.payload| <= 1 {
        return None;
      }
      var list := SessionsAt(packet.payload[1]);
      var found := FirstToOpenPath(host, packet.payload, list);
      SearchPathEnds(host, packet.payload, list);
      r := if found.Hit? then Some(found.value) else None;
    }

    /** Overwrites a session's route with one from a PATH message. */
    method Learn(l: LearnedPath)
      requires RosterOk() && l.pub in sessions && RouteFits(l.msg.path, l.msg.hashSize)
      modifies this`sessions
      ensures RosterOk()
      ensures sessions == old(sessions)[l.pub := Learned(old(sessions)[l.pub], l.msg)]
    {
      LearnKeepsSessions(host, sessions, names, byHash, logins, l.pub, l.msg);
      if l.msg.path != [] {
        sessions := sessions[l.pub := sessions[l.pub].(routeType := DIRECT, path := l.msg.path,
                                                       hashSize := l.msg.hashSize)];
      }
    }

    /** What a PATH message that opened teaches and confirms. */
    method TakePath(l: LearnedPath)
      requires Sound() && l.pub in sessions && RouteFits(l.msg.path, l.msg.hashSize)
      modifies this`sessions, waiters
      ensures Sound() && Now() == AfterPath(old(Now()), l)
    {
      Learn(l);
      if l.msg.extraType == TYPE_ACK && |l.msg.extra| >= ACK_HASH_SIZE {
        Resolve(l.msg.extra[..ACK_HASH_SIZE]);
      }
    }

    /** A returned PATH: confirms the push whose ACK it bundles, and teaches a direct route. */
    method HandlePath(packet: Packet) returns (o: Outcome)
      requires Sound()
      modifies this`sessions, waiters
      ensures Sound()
      ensures PathStep(host, old(Now()), packet, o, Now())
    {
      o := Ignored;
      var found := OpenPath(packet);
      if found.Some? {
        ParsedRouteFits(host.c, packet.payload, host.c.ecdh(host.seed, found.value.pub).value);
        TakePath(found.value);
        o := Learnt(found.value);
      }
    }

    // ---- sessions ----

    /** _track_session: creates the session if need be, then sets name and role, and the route if one was observed. */
    method TrackSession(pub: bytes, isAdmin: bool, packet: Packet)
      requires WellFormed(packet) && pub != []
      modifies this`sessions, this`byHash
      ensures sessions ==
        old(sessions)[pub := Tracked(old(sessions), NameOf(names, host.nickname, pub), pub, isAdmin, packet)]
      ensures byHash == if pub in old(sessions) then old(byHash) else WithKey(old(byHash), pub)
    {
      var route := ReturnRoute(packet);
      var name := NameOf(names, host.nickname, pub);
      var session := Session(name, isAdmin, FLOOD, [], 1);
      if pub in sessions {
        session := sessions[pub];
      } else {
        byHash := WithKey(byHash, pub);
      }
      session := session.(name := name, isAdmin := isAdmin);
      if route.routeType == DIRECT {
        session := session.(routeType := route.routeType, path := route.path, hashSize := route.hashSize);
      }
      sessions := sessions[pub := session];
    }

    /** Tracking on an accepted login, which grants a role. */
    method TrackLogin(pub: bytes, isAdmin: bool, packet: Packet)
      requires RosterOk() && WellFormed(packet) && |pub| == PUB_KEY_SIZE && HasSecret(host, pub)
      modifies this`sessions, this`byHash, this`logins
      ensures RosterOk() && logins == old(logins) + [Login(pub, isAdmin)]
      ensures sessions ==
        old(sessions)[pub := Tracked(old(sessions), NameOf(names, host.nickname, pub), pub, isAdmin, packet)]
    {
      TrackKeepsSessions(host, sessions, names, byHash, logins, logins + [Login(pub, isAdmin)], pub, isAdmin, packet);
      TrackSession(pub, isAdmin, packet);
      logins := logins + [Login(pub, isAdmin)];
    }

    /** Tracking on a post, which keeps the role, and leaves messages and posts alone. */
    method TrackPost(pub: bytes, packet: Packet)
      requires RosterOk() && CacheOk() && PostsOk() && ClientsOk() && WellFormed(packet) && pub in sessions
      modifies this`sessions, this`byHash
      ensures RosterOk() && CacheOk() && PostsOk() && ClientsOk()
      ensures Now() == old(Now()).(sessions := WithTracked(host, old(Now()), pub, old(sessions)[pub].isAdmin, packet))
    {
      TrackAgain(pub, packet);
    }

    method TrackAgain(pub: bytes, packet: Packet)
      requires RosterOk() && ClientsOk() && WellFormed(packet) && pub in sessions
      modifies this`sessions, this`byHash
      ensures RosterOk() && ClientsOk()
      ensures Now() == old(Now()).(sessions := WithTracked(host, old(Now()), pub, old(sessions)[pub].isAdmin, packet))
    {
      SessionFacts(pub);
      TrackKeepsSessions(host, sessions, names, byHash, logins, logins, pub, sessions[pub].isAdmin, packet);
      TrackSession(pub, sessions[pub].isAdmin, packet);
    }

    method Publish(packet: Packet)
      requires Encodable(packet)
      modifies this`published
      ensures published == old(published) + [Wire(packet)]
    {
      var wire := EncodePacket(packet);
      published := published + [wire.value];
    }

    /** The session and the row of a client that logs in. */
    method Register(pub: bytes, isAdmin: bool, packet: Packet, serverTs: int)
      requires RosterOk() && ClientsOk() && WellFormed(packet) && |pub| == PUB_KEY_SIZE && HasSecret(host, pub)
      modifies this`sessions, this`byHash, this`logins, store`clients
      ensures RosterOk() && ClientsOk()
      ensures logins == old(logins) + [Login(pub, isAdmin)]
      ensures sessions == WithTracked(host, old(Now()), pub, isAdmin, packet)
      ensures store.clients ==
        Store.Applied(old(store.clients), Store.Login(pub, NameOf(names, host.nickname, pub), isAdmin, serverTs))
    {
      TrackLogin(pub, isAdmin, packet);
      store.UpsertClient(pub, sessions[pub].name, isAdmin, serverTs);
    }

    /** Registers a client, answers it, and starts its sync. */
    method Enrol(pub: bytes, isAdmin: bool, packet: Packet, serverTs: int, answer: Packet, since: int)
      requires RosterOk() && ClientsOk() && WellFormed(packet) && |pub| == PUB_KEY_SIZE && HasSecret(host, pub)
      requires Encodable(answer)
      modifies this`sessions, this`byHash, this`published, this`spawned, this`logins, store`clients
      ensures RosterOk() && ClientsOk()
      ensures Now() == Enrolled(host, old(Now()), packet, pub, isAdmin, serverTs, Wire(answer), since)
    {
      Register(pub, isAdmin, packet, serverTs);
      Answer(answer, SyncTask(pub, since));
    }

    /** Sends an answer, and starts a background task. */
    method Answer(answer: Packet, task: Task)
      requires RosterOk() && ClientsOk() && Encodable(answer)
      modifies this`published, this`spawned
      ensures RosterOk() && ClientsOk()
      ensures published == old(published) + [Wire(answer)] && spawned == old(spawned) + [task]
    {
      Publish(answer);
      spawned := spawned + [task];
    }

    /** The same, with what it leaves alone. */
    method Grant(pub: bytes, isAdmin: bool, packet: Packet, serverTs: int, answer: Packet, since: int)
      requires Sound() && WellFormed(packet) && |pub| == PUB_KEY_SIZE && HasSecret(host, pub) && Encodable(answer)
      modifies this`sessions, this`byHash, this`published, this`spawned, this`logins, store`clients
      ensures Sound()
      ensures Now() == Enrolled(host, old(Now()), packet, pub, isAdmin, serverTs, Wire(answer), since)
    {
      Enrol(pub, isAdmin, packet, serverTs, answer, since);
    }

    /** A login is admitted by its password alone; it is then recorded, answered once, and a sync is started. */
    method HandleLogin(packet: Packet, serverTs: int, random: bytes) returns (o: Outcome)
      requires Sound() && WellFormed(packet) && IsU32(serverTs)
      modifies this`sessions, this`byHash, this`published, this`spawned, this`logins, store`clients
      ensures Sound()
      ensures LoginStep(host, config, old(Now()), packet, serverTs, random, o, Now())
    {
      o := Ignored;
      var admitted := Admits(host, config, packet);
      if admitted.Some? {
        var (req, isAdmin) := admitted.value;
        LoginAnswerEncodes(host, req.clientPubKey, isAdmin, serverTs, random, packet);
        var answer := LoginAnswer(host, req.clientPubKey, isAdmin, serverTs, random, packet);
        Grant(req.clientPubKey, isAdmin, packet, serverTs, answer, req.syncSince);
        o := LoggedIn(req, isAdmin);
      }
    }

    // ---- posts ----

    /** remember_message: purges what is older than the ttl, then says whether the key is new. */
    method RememberMessage(key: Recent.Key, now: real) returns (isNew: bool)
      modifies this`recent
      ensures isNew == Recent.IsNew(old(recent), key, now, config.ttl)
      ensures recent == Recent.Remembered(old(recent), key, now, config.ttl)
    {
      Purge(now - config.ttl);
      if key in recent {
        return false;
      }
      recent := recent[key := now];
      return true;
    }

    method Purge(cutoff: real)
      modifies this`recent
      ensures recent == Recent.Purged(old(recent), cutoff)
    {
      var keys := recent.Keys;
      while keys != {}
        invariant keys <= recent.Keys
        invariant forall k :: k in recent ==> k in old(recent) && recent[k] == old(recent)[k]
        invariant forall k :: k in old(recent) && k !in recent ==> old(recent)[k] < cutoff
        invariant forall k :: k in recent && k !in keys ==> recent[k] >= cutoff
        decreases keys
      {
        var k :| k in keys;
        keys := keys - {k};
        if recent[k] < cutoff {
          recent := recent - {k};
        }
      }
    }

    /** The same, seen over full history: new means no call with this key was accepted within the ttl. */
    method Judge(key: Recent.Key, now: real) returns (isNew: bool)
      requires CacheOk() && PostsOk() && now >= lastNow
      modifies this`recent, this`history, this`lastNow
      ensures CacheOk() && PostsOk() && lastNow == now
      ensures Now() == old(Now()).(history := old(history) + [Recent.Call(key, now, isNew)])
      ensures FiledBelow(filed, |old(history)|)
      ensures isNew <==> !Recent.AcceptedSince(old(history), key, now - config.ttl)
    {
      CallKeepsCache(recent, history, lastNow, config.ttl, key, now);
      FiledGrows(host, filed, history, store.posts, Recent.Call(key, now, Recent.IsNew(recent, key, now, config.ttl)));
      history := Recent.Recorded(recent, history, key, now, config.ttl);
      lastNow := now;
      isNew := RememberMessage(key, now);
    }

    /** A session at the sender's address whose key opens the text message. */
    method OpenTxt(packet: Packet) returns (r: Option<Handled>)
      requires RosterOk()
      ensures r.Some? ==> r.value.pub in Candidates(host, sessions, packet) && OpensTxt(host, packet.payload, r.value)
      ensures r.None? ==> forall p :: p in Candidates(host, sessions, packet) ==> !CanOpenTxt(host, packet.payload, p)
    {
      if !Addressed(host, packet) || |packet.payload| <= 1 {
        return None;
      }
      var list := SessionsAt(packet.payload[1]);
      var found := FirstToOpenTxt(host, packet.payload, list);
      SearchTxtEnds(host, packet.payload, list);
      r := if found.Hit? then Some(found.value) else None;
    }

    /** Stores the message judged last as a post and starts its fan-out. */
    method StorePost(h: Handled)
      requires PostsOk() && IsU32(h.msg.timestamp) && IsTxtType(h.msg.txtType) && history != []
      requires history[|history| - 1].accepted && history[|history| - 1].key == AckKey(host, h)
      requires FiledBelow(filed, |history| - 1)
      modifies this`spawned, this`filed, store`posts, store`lastId
      ensures PostsOk()
      ensures Now() == WithPost(old(Now()), |history| - 1, h)
    {
      var post := store.AddPost(h.pub, h.msg.timestamp, h.msg.text, 0);
      FiledAppend(host, filed, history, old(store.posts), Filing(|history| - 1, h), post);
      filed := filed + [Filing(|history| - 1, h)];
      spawned := spawned + [FanOutTask(post)];
    }

    /**
      A text message: every one that opens is acknowledged exactly once, and is stored, and handed to
      fan-out, exactly when it is plain and no message with its key was accepted within the ttl.
     */
    method HandlePost(packet: Packet, now: real) returns (o: Outcome)
      requires RosterOk() && CacheOk() && PostsOk() && ClientsOk() && WellFormed(packet) && now >= lastNow
      modifies this`sessions, this`byHash, this`recent, this`published, this`spawned
      modifies this`history, this`lastNow, this`filed, store`posts, store`lastId
      ensures RosterOk() && CacheOk() && PostsOk() && ClientsOk() && old(lastNow) <= lastNow <= now
      ensures PostStep(host, config, old(Now()), packet, now, o, Now())
    {
      o := Ignored;
      var found := OpenTxt(packet);
      if found.Some? {
        o := Accept(found.value, packet, now);
      }
    }

    /** The part of handle_post after a session has been found. */
    method Accept(h: Handled, packet: Packet, now: real) returns (o: Outcome)
      requires RosterOk() && CacheOk() && PostsOk() && ClientsOk() && WellFormed(packet) && now >= lastNow
      requires h.pub in Candidates(host, sessions, packet) && OpensTxt(host, packet.payload, h)
      modifies this`sessions, this`byHash, this`recent, this`published, this`spawned
      modifies this`history, this`lastNow, this`filed, store`posts, store`lastId
      ensures RosterOk() && CacheOk() && PostsOk() && ClientsOk() && lastNow == now
      ensures PostStep(host, config, old(Now()), packet, now, o, Now())
    {
      OpenedTxt(host, packet.payload, h);
      PostAckReads(host, h, packet);
      var isNew := Heed(h, PostAck(host, h, packet), packet, now);
      HeedIsStep(host, config, old(Now()), packet, now, h, Recent.Call(AckKey(host, h), now, isNew),
                 Wire(PostAck(host, h, packet)), Now());
      o := Posted(h, isNew);
    }

    /** Tracks the sender, then takes its message in. */
    method Heed(h: Handled, ack: Packet, packet: Packet, now: real) returns (isNew: bool)
      requires RosterOk() && CacheOk() && PostsOk() && ClientsOk() && WellFormed(packet) && now >= lastNow
      requires h.pub in sessions && IsU32(h.msg.timestamp) && IsTxtType(h.msg.txtType) && Encodable(ack)
      modifies this`sessions, this`byHash, this`recent, this`published, this`spawned
      modifies this`history, this`lastNow, this`filed, store`posts, store`lastId
      ensures RosterOk() && CacheOk() && PostsOk() && ClientsOk() && lastNow == now
      ensures isNew <==> !Recent.AcceptedSince(old(history), AckKey(host, h), now - config.ttl)
      ensures HeedStep(host, old(Now()), packet, h, Recent.Call(AckKey(host, h), now, isNew), Wire(ack), Now())
    {
      TrackPost(h.pub, packet);
      isNew := TakeIn(h, ack, now);
    }

    /** Takes a message in, and leaves sessions and clients alone. */
    method TakeIn(h: Handled, ack: Packet, now: real) returns (isNew: bool)
      requires RosterOk() && CacheOk() && PostsOk() && ClientsOk() && now >= lastNow
      requires IsU32(h.msg.timestamp) && IsTxtType(h.msg.txtType) && Encodable(ack)
      modifies this`recent, this`published, this`spawned, this`history, this`lastNow, this`filed
      modifies store`posts, store`lastId
      ensures RosterOk() && CacheOk() && PostsOk() && ClientsOk() && lastNow == now
      ensures isNew <==> !Recent.AcceptedSince(old(history), AckKey(host, h), now - config.ttl)
      ensures Now() == Absorbed(old(Now()), h, Recent.Call(AckKey(host, h), now, isNew), Wire(ack))
    {
      isNew := Absorb(h, ack, now);
    }

    /** Judges the message, sends its acknowledgement, and stores it if it is to be stored. */
    method Absorb(h: Handled, ack: Packet, now: real) returns (isNew: bool)
      requires CacheOk() && PostsOk() && now >= lastNow
      requires IsU32(h.msg.timestamp) && IsTxtType(h.msg.txtType) && Encodable(ack)
      modifies this`recent, this`published, this`spawned, this`history, this`lastNow, this`filed
      modifies store`posts, store`lastId
      ensures CacheOk() && PostsOk() && lastNow == now
      ensures isNew <==> !Recent.AcceptedSince(old(history), AckKey(host, h), now - config.ttl)
      ensures Now() == Absorbed(old(Now()), h, Recent.Call(AckKey(host, h), now, isNew), Wire(ack))
    {
      isNew := Judge(AckKey(host, h), now);
      Publish(ack);
      if Stores(h, isNew) {
        StorePost(h);
      }
    }

    // ---- pushes ----

    lemma MayPush(p: Push)
      requires RosterOk() && p.pub in sessions && IsU32(p.post.ts)
      ensures CanPush(host, sessions, p)
    {
      SessionFacts(p.pub);
    }

    ghost function TheLine(): Line
      reads this`published, store`clients
    {
      Line(published, store.clients)
    }

    /**
      One post to one client over its session's route: one delivery is published, and books the cursor if acknowledged.
     */
    method PushPost(p: Push, acked: nat -> bool) returns (r: Result<DeliveryResult, DeliveryError>)
      requires CanPush(host, sessions, p)
      modifies this`published, store`clients
      ensures var d := PushOutcome(host, config, sessions, p, acked);
        r == d.result && TheLine() == PushOne(old(TheLine()), p, d)
    {
      var job := PushJobOf(host, config, sessions[p.pub], p);
      var wires;
      wires, r := Room.DeliverRoomPushWithAck(host.c, job, acked);
      if job.direct >= 0 && job.flood >= 0 && Room.PushAttempts(job) != [] {
        Room.DeliveredIsPushDelivery(host.c, job, acked, wires, r);
      }
      published := published + wires;
      if r.Success? && r.value.acked {
        store.SetClientCursor(p.pub, p.post.ts);
      }
    }

    /** The posts a sync sends: the first max_sync_posts of other authors' posts newer than `since`. */
    function SyncBatch(pub: bytes, since: int): seq<Store.Post>
      reads store`posts
    {
      Store.Prefix(Store.PostsSince(store.posts, since, Some(pub)), config.maxSyncPosts)
    }

    /** They are the earliest newer posts by others, in order. */
    lemma SyncBatchExact(pub: bytes, since: int)
      requires PostsOk()
      ensures var batch := SyncBatch(pub, since);
        && Store.Ascending(batch)
        && (forall p :: p in batch ==> p in store.posts && p.ts > since && p.author != pub)
        && (forall p, q :: p in store.posts && p.ts > since && p.author != pub && p !in batch && q in batch ==>
              Store.Before(q, p))
        && (config.maxSyncPosts >= 0 ==> |batch| <= config.maxSyncPosts)
        && (forall p :: p in store.posts && p.ts > since && p.author != pub && p !in batch ==>
              config.maxSyncPosts < 0 || |batch| == config.maxSyncPosts)
    {
      Store.BatchExact(store.posts, since, pub, config.maxSyncPosts);
    }

    /**
      The posts of a batch, one delivery after another, in timestamp order; `acked(i)` gives the wait outcomes of the
      i-th. A delivery that cannot be made ends the sync; with attempts configured there is none.
     */
    method SyncClient(pub: bytes, since: int, acked: nat -> nat -> bool) returns (done: nat, failed: bool)
      requires RosterOk() && PostsOk() && ClientsOk() && pub in sessions
      modifies this`published, store`clients
      ensures ClientsOk() && AllPushable(host, sessions, PushesTo(pub, SyncBatch(pub, since)))
      ensures done <= |SyncBatch(pub, since)| && (failed || done == |SyncBatch(pub, since)|)
      ensures PushesConfigured(config) ==> !failed
      ensures TheLine() ==
        PushMany(host, config, sessions, old(TheLine()), PushesTo(pub, SyncBatch(pub, since)), acked, done)
      ensures Going(host, config, sessions, PushesTo(pub, SyncBatch(pub, since)), acked, done, failed)
    {
      BatchFits(pub, since);
      ghost var line := TheLine();
      done, failed := PushBatch(PushesTo(pub, SyncBatch(pub, since)), acked);
      if PushesConfigured(config) {
        SeriesNeverFails(host, config, sessions, PushesTo(pub, SyncBatch(pub, since)), acked, done, failed);
      }
      PushesKeepRoles(host, config, sessions, line, PushesTo(pub, SyncBatch(pub, since)), acked, done);
    }

    /** Stops at the first delivery that cannot be made. */
    method PushBatch(ps: seq<Push>, acked: nat -> nat -> bool) returns (done: nat, failed: bool)
      requires AllPushable(host, sessions, ps)
      modifies this`published, store`clients
      ensures done <= |ps| && (failed || done == |ps|)
      ensures TheLine() == PushMany(host, config, sessions, old(TheLine()), ps, acked, done)
      ensures Going(host, config, sessions, ps, acked, done, failed)
    {
      ghost var line := TheLine();
      done, failed := 0, false;
      while done < |ps| && !failed
        invariant done <= |ps| && Going(host, config, sessions, ps, acked, done, failed)
        invariant TheLine() == PushMany(host, config, sessions, line, ps, acked, done)
      {
        failed := PushNth(ps, acked, done, line);
        done := done + 1;
      }
    }

    /** The next of a series of pushes. */
    method PushNth(ps: seq<Push>, acked: nat -> nat -> bool, n: nat, ghost line: Line) returns (failed: bool)
      requires AllPushable(host, sessions, ps) && n < |ps| && Going(host, config, sessions, ps, acked, n, false)
      requires TheLine() == PushMany(host, config, sessions, line, ps, acked, n)
      modifies this`published, store`clients
      ensures TheLine() == PushMany(host, config, sessions, line, ps, acked, n + 1)
      ensures Going(host, config, sessions, ps, acked, n + 1, failed)
    {
      PushManyMore(host, config, sessions, line, ps, acked, n);
      NoneFailsMore(host, config, sessions, ps, acked, n);
      var r := PushPost(ps[n], acked(n));
      failed := r.Failure?;
    }

    lemma BatchFits(pub: bytes, since: int)
      requires RosterOk() && PostsOk() && pub in sessions
      ensures AllPushable(host, sessions, PushesTo(pub, SyncBatch(pub, since)))
    {
      var batch := SyncBatch(pub, since);
      Store.PostsSinceExact(store.posts, since, Some(pub));
      forall i | 0 <= i < |batch| ensures CanPush(host, sessions, PushesTo(pub, batch)[i]) {
        assert batch[i] in Store.PostsSince(store.posts, since, Some(pub));
        MayPush(Push(pub, batch[i]));
      }
    }

    /** Every session but the author's, once each. */
    method Others(author: bytes) returns (targets: seq<bytes>)
      ensures forall p :: p in targets <==> p in sessions && p != author
      ensures |targets| == |sessions.Keys - {author}|
    {
      targets := [];
      var all := sessions.Keys - {author};
      var rest := all;
      while rest != {}
        invariant rest <= all
        invariant forall p :: p in targets <==> p in all - rest
        invariant |targets| + |rest| == |all|
        decreases rest
      {
        var p :| p in rest;
        rest := rest - {p};
        targets := targets + [p];
      }
    }

    lemma TargetsFit(targets: seq<bytes>, post: Store.Post)
      requires RosterOk() && IsU32(post.ts) && forall p :: p in targets ==> p in sessions
      ensures AllPushable(host, sessions, PushesOf(targets, post))
    {
      forall i | 0 <= i < |targets| ensures CanPush(host, sessions, PushesOf(targets, post)[i]) {
        assert targets[i] in targets;
        MayPush(Push(targets[i], post));
      }
    }

    method PushEach(ps: seq<Push>, acked: nat -> nat -> bool)
      requires AllPushable(host, sessions, ps)
      modifies this`published, store`clients
      ensures TheLine() == PushMany(host, config, sessions, old(TheLine()), ps, acked, |ps|)
    {
      ghost var line, known := TheLine(), sessions;
      for i := 0 to |ps|
        invariant sessions == known && TheLine() == PushMany(host, config, known, line, ps, acked, i)
      {
        PushManyMore(host, config, known, line, ps, acked, i);
        var r := PushPost(ps[i], acked(i));
      }
    }

    /** A stored post is delivered once to every session but its author's, whatever becomes of the other deliveries. */
    method FanOut(post: Store.Post, acked: nat -> nat -> bool) returns (targets: seq<bytes>)
      requires RosterOk() && ClientsOk() && IsU32(post.ts)
      modifies this`published, store`clients
      ensures ClientsOk()
      ensures forall p :: p in targets <==> p in sessions && p != post.author
      ensures |targets| == |sessions.Keys - {post.author}| && AllPushable(host, sessions, PushesOf(targets, post))
      ensures TheLine() == PushMany(host, config, sessions, old(TheLine()), PushesOf(targets, post), acked, |targets|)
    {
      targets := Others(post.author);
      TargetsFit(targets, post);
      ghost var line := TheLine();
      PushEach(PushesOf(targets, post), acked);
      PushesKeepRoles(host, config, sessions, line, PushesOf(targets, post), acked, |targets|);
    }

    /** Runs a background task. */
    method Run(task: Task, acked: nat -> nat -> bool)
      requires RosterOk() && PostsOk() && ClientsOk() && Runnable(sessions, task)
      modifies this`published, store`clients
      ensures ClientsOk()
    {
      match task {
        case SyncTask(pub, since) =>
          var done, failed := SyncClient(pub, since, acked);
        case FanOutTask(post) =>
          var targets := FanOut(post, acked);
      }
    }

    /** One that has been started can be run whenever its turn comes, and touches nothing but packets and cursors. */
    method RunTask(task: Task, acked: nat -> nat -> bool)
      requires Valid() && task in spawned
      modifies this`published, store`clients
      ensures Valid()
    {
      Run(task, acked);
      assert TasksOk(Now());
    }

    // ---- the receive loop ----

    method ReceiveLogin(f: Frame, packet: Packet) returns (o: Outcome)
      requires Sound() && IsU32(f.serverTs) && Decode(f.wire) == Success(packet) && packet.payloadType == TYPE_ANON_REQ
      modifies this`sessions, this`byHash, this`published, this`spawned, this`logins, store`clients
      ensures Sound()
      ensures Stepped(host, config, old(Now()), f, o, Now())
    {
      EncodeOfDecode(f.wire);
      o := HandleLogin(packet, f.serverTs, f.random);
      LoginStepIsStep(host, config, old(Now()), f, packet, o, Now());
    }

    method ReceivePost(f: Frame, packet: Packet) returns (o: Outcome)
      requires Sound() && IsU32(f.serverTs) && Decode(f.wire) == Success(packet) && packet.payloadType == TYPE_TXT_MSG
      requires f.at >= lastNow
      modifies this`sessions, this`byHash, this`recent, this`published, this`spawned
      modifies this`history, this`lastNow, this`filed, store`posts, store`lastId
      ensures Sound() && old(lastNow) <= lastNow <= f.at
      ensures Stepped(host, config, old(Now()), f, o, Now())
    {
      EncodeOfDecode(f.wire);
      o := HandlePost(packet, f.at);
      PostStepIsStep(host, config, old(Now()), f, packet, o, Now());
    }

    method ReceiveOther(f: Frame, packet: Packet) returns (o: Outcome)
      requires Sound() && IsU32(f.serverTs) && Decode(f.wire) == Success(packet)
      requires packet.payloadType != TYPE_ANON_REQ && packet.payloadType != TYPE_TXT_MSG
      modifies this`names, this`sessions, this`advertTs, waiters
      ensures Sound()
      ensures Stepped(host, config, old(Now()), f, o, Now())
    {
      o := Ignored;
      if packet.payloadType == TYPE_ADVERT {
        o := HandleAdvert(packet);
      } else if packet.payloadType == TYPE_ACK {
        o := HandleAck(packet);
      } else if packet.payloadType == TYPE_PATH {
        o := HandlePath(packet);
      }
    }

    /** Dispatch by payload type. */
    method Dispatch(f: Frame, packet: Packet) returns (o: Outcome)
      requires Sound() && f.at >= lastNow && IsU32(f.serverTs) && Decode(f.wire) == Success(packet)
      modifies this, waiters, store
      ensures Sound() && old(lastNow) <= lastNow <= f.at
      ensures Stepped(host, config, old(Now()), f, o, Now())
    {
      if packet.payloadType == TYPE_ANON_REQ {
        o := ReceiveLogin(f, packet);
      } else if packet.payloadType == TYPE_TXT_MSG {
        o := ReceivePost(f, packet);
      } else {
        o := ReceiveOther(f, packet);
      }
    }

    /** One received frame: what it may lead to, and exactly what that does. */
    method Receive(f: Frame) returns (o: Outcome)
      requires Valid() && f.at >= lastNow && IsU32(f.serverTs)
      modifies this, waiters, store
      ensures Valid() && old(lastNow) <= lastNow <= f.at
      ensures Stepped(host, config, old(Now()), f, o, Now())
    {
      o := Ignored;
      var decoded := DecodePacket(f.wire);
      if decoded.Success? {
        o := Dispatch(f, decoded.value);
      }
      StepKeepsTasks(host, config, old(Now()), f, o, Now());
    }

    /**
      The receive loop: any frames whatever, each to its effect. What whole runs then come to is proved of Follows and
      Reach.
     */
    method ReceiveLoop(frames: seq<Frame>) returns (outcomes: seq<Outcome>)
      requires Valid() && Timely(frames, lastNow)
      modifies this, waiters, store
      ensures Valid()
      ensures host.pubKey != [] && RunsTo(host, config, old(Now()), frames, outcomes, Now())
    {
      ghost var start := Now();
      outcomes := [];
      for i := 0 to |frames|
        invariant Valid() && forall k :: i <= k < |frames| ==> lastNow <= frames[k].at
        invariant RunsTo(host, config, start, frames[..i], outcomes, Now())
      {
        assert frames[..i + 1] == frames[..i] + [frames[i]];
        ghost var mid := Now();
        var o := Receive(frames[i]);
        RunsOn(host, config, start, frames[..i], outcomes, mid, frames[i], o, Now());
        outcomes := outcomes + [o];
      }
      assert frames[..|frames|] == frames;
    }
  }
}
