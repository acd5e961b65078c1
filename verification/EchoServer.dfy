/** The echo server (echo_server.py): contacts, the duplicate and best-path caches, and the echo of each new message. */
module EchoServers {
  import opened Bytes
  import opened Wrappers
  import opened Packets
  import opened Crypto
  import opened Messaging
  import opened Inbound
  import opened EchoStates
  import AckTable
  import Recent

  /** What the duplicate cache is about, as the invariant reads it. */
  datatype Memory = Memory(caches: Caches, history: seq<Recent.Call>, lastNow: real)

  ghost predicate MemorySound(m: Memory, ttl: real) {
    CachesSound(m.caches, m.history, m.lastNow, ttl)
  }

  /** Every echo started can be delivered: its peer shares a secret and its packet was received. */
  ghost predicate TasksOk(host: Host, tasks: seq<Echo>) {
    forall e :: e in tasks ==> Deliverable(host, e)
  }

  ghost predicate Deliverable(host: Host, e: Echo) {
    e.pub != [] && HasSecret(host, e.pub) && WellFormed(e.inbound)
  }

  class EchoServer {
    const host: Host
    const config: Config
    const waiters: AckTable.AckWaiters
    var contacts: Contacts
    var recentMessages: Recent.Cache
    var recentPaths: Paths
    var advertTs: map<bytes, int>
    var published: seq<bytes>
    var tasks: seq<Echo>
    ghost var history: seq<Recent.Call>
    ghost var lastNow: real

    constructor (host: Host, config: Config, now: real)
      requires host.pubKey != []
      ensures Valid() && fresh(this) && fresh(waiters) && this.host == host && this.config == config
      ensures Now() == State(map[], Caches(map[], map[]), map[], [], [], AckTable.IDLE, []) && lastNow == now
    {
      this.host, this.config := host, config;
      waiters := new AckTable.AckWaiters();
      contacts, recentMessages, recentPaths, advertTs := map[], map[], map[], map[];
      published, tasks, history, lastNow := [], [], [], now;
    }

    /** The state a step starts from and ends in. */
    ghost function Now(): State
      reads this, waiters
    {
      State(contacts, CachesNow(), advertTs, published, tasks, waiters.Current(), history)
    }

    ghost function CachesNow(): Caches
      reads this`recentMessages, this`recentPaths
    {
      Caches(recentMessages, recentPaths)
    }

    ghost function TheMemory(): Memory
      reads this`recentMessages, this`recentPaths, this`history, this`lastNow
    {
      Memory(CachesNow(), history, lastNow)
    }

    ghost predicate ContactsKnown()
      reads this`contacts
    {
      host.pubKey != [] && ContactsOk(contacts)
    }

    ghost predicate CachesKept()
      reads this`recentMessages, this`recentPaths, this`history, this`lastNow
    {
      MemorySound(TheMemory(), config.ttl)
    }

    ghost predicate Valid()
      reads this, waiters
    {
      ContactsKnown() && CachesKept() && TasksOk(host, tasks) && AckTable.Inv(waiters.Current())
    }

    // ---- adverts ----

    /** Whether the contact is new or renamed. */
    method AddContact(pub: bytes, name: bytes) returns (changed: bool)
      requires pub != []
      modifies this`contacts
      ensures contacts == ContactAdded(old(contacts), pub, name)
      ensures changed <==> NameIn(ContactsAt(old(contacts), pub[0]), pub) != Some(name)
    {
      var known := ContactsAt(contacts, pub[0]);
      var prev := NameIn(known, pub);
      contacts := contacts[pub[0] := Filed(known, pub, name)];
      changed := prev != Some(name);
    }

    /** A contact from the cache file or the configuration: its key is taken as it is. */
    method LoadContact(pub: bytes, name: bytes) returns (changed: bool)
      requires Valid() && |pub| == PUB_KEY_SIZE
      modifies this`contacts
      ensures Valid() && Now() == old(Now()).(contacts := ContactAdded(old(contacts), pub, name))
    {
      ContactsGrow(contacts, pub, name);
      changed := AddContact(pub, name);
    }

    method HandleAdvert(packet: Packet) returns (o: Outcome)
      requires Valid()
      modifies this`contacts, this`advertTs
      ensures Valid()
      ensures AdvertPossible(host, old(Now()), packet, o)
      ensures Now() == if o.Named? && o.ad.pubKey != [] then AfterAdvert(old(Now()), o.ad) else old(Now())
      ensures forall p :: p in old(advertTs) ==> p in advertTs && advertTs[p] >= old(advertTs)[p]
    {
      var ad := Advertised(host, packet);
      if ad.None? || Stale(advertTs, ad.value) {
        return Ignored;
      }
      advertTs := advertTs[ad.value.pubKey := ad.value.timestamp];
      var changed := LoadContact(ad.value.pubKey, ad.value.appData.name);
      return Named(ad.value);
    }

    // ---- messages ----

    method HandleAck(packet: Packet) returns (o: Outcome)
      requires Valid()
      modifies waiters
      ensures Valid()
      ensures AckPossible(packet, o)
      ensures Now() == old(Now()).(acks :=
        if o.Acked? then AckTable.After(old(waiters.Current()), AckTable.Resolve(o.hash)) else old(waiters.Current()))
    {
      var ack := ParseAck(packet.payload);
      if ack.None? {
        return Ignored;
      }
      AckTable.StepKeepsInv(waiters.Current(), AckTable.Resolve(ack.value));
      var any := waiters.ResolveAck(ack.value);
      return Acked(ack.value);
    }

    method RememberPath(key: Recent.Key, packet: Packet)
      modifies this`recentPaths
      ensures recentPaths == PathRemembered(old(recentPaths), key, packet)
    {
      if key !in recentPaths || HopCount(packet) > HopCount(recentPaths[key]) {
        recentPaths := recentPaths[key := packet];
      }
    }

    /** Purges expired keys from both caches, then says whether the key is new. */
    method RememberMessage(key: Recent.Key, now: real) returns (isNew: bool)
      modifies this`recentMessages, this`recentPaths
      ensures isNew == Recent.IsNew(old(recentMessages), key, now, config.ttl)
      ensures recentMessages == Recent.Remembered(old(recentMessages), key, now, config.ttl)
      ensures recentPaths == PathsPurged(old(recentPaths), old(recentMessages), now - config.ttl)
    {
      Purge(now - config.ttl);
      if key in recentMessages {
        return false;
      }
      recentMessages := recentMessages[key := now];
      return true;
    }

    method Purge(cutoff: real)
      modifies this`recentMessages, this`recentPaths
      ensures recentMessages == Recent.Purged(old(recentMessages), cutoff)
      ensures recentPaths == PathsPurged(old(recentPaths), old(recentMessages), cutoff)
    {
      var keys := recentMessages.Keys;
      while keys != {}
        invariant keys <= recentMessages.Keys <= old(recentMessages).Keys
        invariant forall k :: k in recentMessages ==> recentMessages[k] == old(recentMessages)[k]
        invariant forall k :: k in old(recentMessages) && k !in recentMessages ==> old(recentMessages)[k] < cutoff
        invariant forall k :: k in recentMessages && k !in keys ==> recentMessages[k] >= cutoff
        invariant recentPaths == old(recentPaths) - (old(recentMessages).Keys - recentMessages.Keys)
        decreases keys
      {
        var k :| k in keys;
        keys := keys - {k};
        if recentMessages[k] < cutoff {
          recentMessages := recentMessages - {k};
          recentPaths := recentPaths - {k};
        }
      }
    }

    /** remember_path, then remember_message. */
    method RememberBoth(key: Recent.Key, packet: Packet, now: real) returns (isNew: bool)
      modifies this`recentMessages, this`recentPaths
      ensures CachesNow() == Heard(old(CachesNow()), key, packet, now, config.ttl)
      ensures isNew == Recent.IsNew(old(recentMessages), key, now, config.ttl)
    {
      RememberPath(key, packet);
      isNew := RememberMessage(key, now);
    }

    /** The same over full history: new means that no call with this key was accepted within the ttl. */
    method Remember(key: Recent.Key, packet: Packet, now: real) returns (isNew: bool)
      requires CachesKept() && WellFormed(packet) && now >= lastNow
      modifies this`recentMessages, this`recentPaths, this`history, this`lastNow
      ensures CachesKept() && lastNow == now
      ensures CachesNow() == Heard(old(CachesNow()), key, packet, now, config.ttl)
      ensures history == old(history) + [Recent.Call(key, now, isNew)]
      ensures isNew <==> !Recent.AcceptedSince(old(history), key, now - config.ttl)
    {
      HeardOverHistory(CachesNow(), history, lastNow, key, packet, now, config.ttl);
      history := Recent.Recorded(recentMessages, history, key, now, config.ttl);
      lastNow := now;
      isNew := RememberBoth(key, packet, now);
    }

    /** The search for a contact at the sender's address whose key opens the message. */
    method OpenTxt(packet: Packet) returns (r: Search<Handled>)
      requires host.pubKey != []
      ensures r == SearchTxt(host, packet.payload, Candidates(host, contacts, packet))
    {
      if !Addressed(host, packet) || |packet.payload| <= 1 {
        return Nobody;
      }
      r := FirstToOpenTxt(host, packet.payload, Keys(ContactsAt(contacts, packet.payload[1])));
    }

    method OpenPath(packet: Packet) returns (r: Search<LearnedPath>)
      requires host.pubKey != []
      ensures r == SearchPath(host, packet.payload, Candidates(host, contacts, packet))
    {
      if !Addressed(host, packet) || |packet.payload| <= 1 {
        return Nobody;
      }
      r := FirstToOpenPath(host, packet.payload, Keys(ContactsAt(contacts, packet.payload[1])));
    }

    /** Whoever is found is a contact, so its key is not empty. */
    lemma FoundIsContact(packet: Packet, h: Handled)
      requires ContactsKnown() && SearchTxt(host, packet.payload, Candidates(host, contacts, packet)) == Hit(h)
      ensures h.pub != []
    {
      var list := Candidates(host, contacts, packet);
      SearchTxtEnds(host, packet.payload, list);
      var i :| EndsAtTxt(host, packet.payload, list, Hit(h), i);
      assert list[i] in Keys(ContactsAt(contacts, packet.payload[1]));
    }

    method Publish(packet: Packet)
      requires Encodable(packet)
      modifies this`published
      ensures published == old(published) + [Wire(packet)]
    {
      var wire := EncodePacket(packet);
      published := published + [wire.value];
    }

    /**
      A flooded PATH message with a route is answered along that route with the route this packet took; the
      encoder never refuses the answer. Unlike the room server's, this handler resolves no waiter.
     */
    method HandlePathMsg(packet: Packet, random: bytes) returns (o: Outcome)
      requires host.pubKey != [] && WellFormed(packet)
      modifies this`published
      ensures PathStep(host, old(Now()), packet, random, o, Now())
    {
      var found := OpenPath(packet);
      match found {
        case Nobody => o := Ignored;
        case Raised => o := Lost;
        case Hit(l) =>
          if IsFlood(packet) && l.msg.path != [] {
            PathAnswerEncodes(host, l, packet, random);
            Publish(PathAnswer(host, l, packet, random));
          }
          o := Learnt(l);
      }
    }

    /** Every copy of a message that opens is acknowledged once; an echo is started for it only if it is new. */
    method HandleTxtMsg(packet: Packet, now: real) returns (o: Outcome)
      requires ContactsKnown() && CachesKept() && TasksOk(host, tasks) && WellFormed(packet) && now >= lastNow
      modifies this`recentMessages, this`recentPaths, this`history, this`lastNow, this`published, this`tasks
      ensures CachesKept() && TasksOk(host, tasks) && old(lastNow) <= lastNow <= now
      ensures TxtStep(host, config, old(Now()), packet, now, o, Now())
    {
      var found := OpenTxt(packet);
      match found {
        case Nobody => o := Ignored;
        case Raised => o := Lost;
        case Hit(h) =>
          o := Accept(h, packet, now);
      }
    }

    /** The part of handle_txt_msg after a contact has been found. */
    method Accept(h: Handled, packet: Packet, now: real) returns (o: Outcome)
      requires ContactsKnown() && CachesKept() && TasksOk(host, tasks) && WellFormed(packet) && now >= lastNow
      requires SearchTxt(host, packet.payload, Candidates(host, contacts, packet)) == Hit(h)
      modifies this`recentMessages, this`recentPaths, this`history, this`lastNow, this`published, this`tasks
      ensures CachesKept() && TasksOk(host, tasks) && lastNow == now
      ensures TxtStep(host, config, old(Now()), packet, now, o, Now())
    {
      OpenedTxt(host, packet.payload, h);
      PostAckReads(host, h, packet);
      FoundIsContact(packet, h);
      var isNew := Absorb(h, PostAck(host, h, packet), packet, now);
      AbsorbedIsStep(host, config, old(Now()), packet, now, h, Recent.Call(AckKey(host, h), now, isNew),
                     Wire(PostAck(host, h, packet)), Now());
      o := Taken(h, isNew);
    }

    /** Remembers the message with its path, acknowledges it, and echoes it if new. */
    method Absorb(h: Handled, ack: Packet, packet: Packet, now: real) returns (isNew: bool)
      requires CachesKept() && TasksOk(host, tasks) && WellFormed(packet) && now >= lastNow && h.pub != []
      requires HasSecret(host, h.pub)
      requires IsU32(h.msg.timestamp) && IsTxtType(h.msg.txtType) && Encodable(ack)
      modifies this`recentMessages, this`recentPaths, this`history, this`lastNow, this`published, this`tasks
      ensures CachesKept() && TasksOk(host, tasks) && lastNow == now
      ensures isNew <==> !Recent.AcceptedSince(old(history), AckKey(host, h), now - config.ttl)
      ensures Now() == Absorbed(old(Now()), config.ttl, h, Recent.Call(AckKey(host, h), now, isNew), packet, Wire(ack))
    {
      isNew := Remember(AckKey(host, h), packet, now);
      Respond(ack, Echo(h.pub, AckKey(host, h), packet, h.msg.text), isNew);
    }

    /** Sends the acknowledgement, and starts an echo for a new message. */
    method Respond(ack: Packet, e: Echo, isNew: bool)
      requires TasksOk(host, tasks) && Encodable(ack) && Deliverable(host, e)
      modifies this`published, this`tasks
      ensures TasksOk(host, tasks)
      ensures Now() ==
        old(Now()).(published := old(published) + [Wire(ack)], tasks := old(tasks) + if isNew then [e] else [])
    {
      Publish(ack);
      if isNew {
        tasks := tasks + [e];
      }
    }

    /** best_path_packet: the remembered path, or the packet the echo was started for. */
    function BestPath(key: Recent.Key, fallback: Packet): Packet
      reads this`recentPaths
    {
      if key in recentPaths then recentPaths[key] else fallback
    }

    /** deliver_echo: one delivery along the best path known when it starts. */
    method DeliverEcho(e: Echo, timestamp: int, acked: nat -> bool) returns (r: Result<DeliveryResult, DeliveryError>)
      requires CachesKept() && host.pubKey != [] && Deliverable(host, e)
      requires config.directAttempts >= 0 && config.floodAttempts > 0
      requires IsU32(timestamp) && IsU32(timestamp + (config.directAttempts + config.floodAttempts) / 4)
      modifies this`published
      ensures r.Success? && (r.value.acked <==> acked(r.value.attempt))
      ensures |published| == |old(published)| + r.value.attempt + 1 && published[..|old(published)|] == old(published)
      ensures var best := if e.key in recentPaths then recentPaths[e.key] else e.inbound;
        WellFormed(best)
          && Delivered(TxtShots(host.c, EchoJob(host, config, e, best, timestamp)), acked,
                       published[|old(published)|..], r)
    {
      var best := BestPath(e.key, e.inbound);
      var job := EchoJob(host, config, e, best, timestamp);
      ReversePathInvolution(best.path, best.hashSize);
      var wires;
      wires, r := DeliverTxtMsgWithAck(host.c, job, acked);
      EchoNeverFails(host, config, e, best, timestamp, acked, wires, r);
      published := published + wires;
      assert published[|old(published)|..] == wires;
    }

    // ---- the receive loop ----

    method ReceivePath(f: Frame, packet: Packet) returns (o: Outcome)
      requires Valid() && Decode(f.wire) == Success(packet) && packet.payloadType == TYPE_PATH
      modifies this`published
      ensures Valid()
      ensures Possible(host, config, old(Now()), f, o) && Now() == After(host, config, old(Now()), f, o)
    {
      EncodeOfDecode(f.wire);
      o := HandlePathMsg(packet, f.random);
      PathStepIsStep(host, config, old(Now()), f, packet, o, Now());
    }

    method ReceiveTxt(f: Frame, packet: Packet) returns (o: Outcome)
      requires Valid() && Decode(f.wire) == Success(packet) && packet.payloadType == TYPE_TXT_MSG && f.at >= lastNow
      modifies this`recentMessages, this`recentPaths, this`history, this`lastNow, this`published, this`tasks
      ensures Valid() && old(lastNow) <= lastNow <= f.at
      ensures Possible(host, config, old(Now()), f, o) && Now() == After(host, config, old(Now()), f, o)
    {
      EncodeOfDecode(f.wire);
      o := HandleTxtMsg(packet, f.at);
      TxtStepIsStep(host, config, old(Now()), f, packet, o, Now());
    }

    /** Dispatch of one received frame of a modelled type: what it may lead to, and exactly what that does. */
    method Receive(f: Frame) returns (o: Outcome)
      requires Valid() && f.at >= lastNow
      modifies this, waiters
      ensures Valid() && old(lastNow) <= lastNow <= f.at
      ensures Possible(host, config, old(Now()), f, o) && Now() == After(host, config, old(Now()), f, o)
    {
      o := Ignored;
      var decoded := DecodePacket(f.wire);
      if decoded.Success? {
        var packet := decoded.value;
        if packet.payloadType == TYPE_ADVERT {
          o := HandleAdvert(packet);
        } else if packet.payloadType == TYPE_ACK {
          o := HandleAck(packet);
        } else if packet.payloadType == TYPE_PATH {
          o := ReceivePath(f, packet);
        } else if packet.payloadType == TYPE_TXT_MSG {
          o := ReceiveTxt(f, packet);
        }
      }
    }

    /**
      The receive loop: any frames whatever, each to its effect. What whole runs then come to is proved of Follows and
      Reach.
     */
    method ReceiveLoop(frames: seq<Frame>) returns (outcomes: seq<Outcome>)
      requires Valid() && Timely(frames, lastNow)
      modifies this, waiters
      ensures Valid()
      ensures host.pubKey != [] && Follows(host, config, old(Now()), frames, outcomes)
      ensures Now() == Reach(host, config, old(Now()), frames, outcomes)
    {
      ghost var start := Now();
      outcomes := [];
      for i := 0 to |frames|
        invariant Valid() && forall k :: i <= k < |frames| ==> lastNow <= frames[k].at
        invariant Follows(host, config, start, frames[..i], outcomes)
        invariant Now() == Reach(host, config, start, frames[..i], outcomes)
      {
        assert frames[..i + 1] == frames[..i] + [frames[i]];
        var o := Receive(frames[i]);
        FollowsMore(host, config, start, frames[..i], outcomes, frames[i], o);
        outcomes := outcomes + [o];
      }
      assert frames[..|frames|] == frames;
    }
  }
}
