/** The state of one mqtt_to_serial call (gateway.py): queues, ledger and the loop that drains them. */
module Transmitter {
  import opened Bytes
  import opened Wrappers
  import opened Gateway
  import Kiss

  /**
    time.monotonic and asyncio.sleep. The clock never goes back; a punctual one sleeps for at least as long as asked.
    `lost` is the time that has passed other than in sleeps, or in sleeps beyond what was asked for.
   */
  class Clock {
    var now: real
    const punctual: bool
    ghost var lost: real

    constructor (start: real, punctual: bool)
      ensures now == start && this.punctual == punctual
    {
      now := start;
      this.punctual := punctual;
      lost := 0.0;
    }

    method Monotonic() returns (t: real)
      modifies this
      ensures t == now && now >= old(now)
      ensures lost - old(lost) == now - old(now)
    {
      var elapsed: real := *;
      if elapsed > 0.0 {
        now := now + elapsed;
        lost := lost + elapsed;
      }
      t := now;
    }

    method Sleep(seconds: real)
      requires seconds >= 0.0
      modifies this
      ensures now >= old(now) && lost >= old(lost)
      ensures now <= old(now) + seconds + (lost - old(lost))
      ensures punctual ==> now >= old(now) + seconds
    {
      var woken: real := *;
      if woken >= now && (punctual ==> woken >= now + seconds) {
        lost := lost + if woken > now + seconds then woken - (now + seconds) else 0.0;
        now := woken;
      } else {
        now := now + seconds;
      }
    }
  }

  /** The ledger and what it is about. */
  datatype Books = Books(used: real, usage: seq<Entry>, sent: seq<Tx>, expired: nat, written: bytes)

  ghost predicate Sound(b: Books, now: real, budget: real, radio: Option<Radio>) {
    && Ledger(b.used, b.usage, b.sent, b.expired, now, budget)
    && Weighed(b.sent, radio)
    && b.written == Kiss.WireAll(DataFrames(b.sent))
  }

  /** What one turn of the flush loop did. */
  datatype Outcome = Dropped | Slept | Sent

  datatype Event = Arrival(source: Source, payload: bytes) | Turn

  class Transmitter {
    const radio: Option<Radio>
    const budget: real
    const clock: Clock
    var used: real
    var usage: seq<Entry>
    var queues: Queues
    var order: seq<Source>
    var written: bytes
    /** Every transmission so far, and how many of them have left the ledger. */
    ghost var sent: seq<Tx>
    ghost var expired: nat

    constructor (radio: Option<Radio>, dutyCycle: real, clock: Clock)
      requires 0.0 < dutyCycle <= 1.0
      ensures LedgerOk() && fresh(this)
      ensures this.radio == radio && this.clock == clock && budget == WINDOW * dutyCycle
      ensures order == [] && queues == map[] && sent == [] && written == []
    {
      this.radio, this.clock := radio, clock;
      budget := WINDOW * dutyCycle;
      used, usage := 0.0, [];
      queues, order := map[], [];
      written := [];
      sent, expired := [], 0;
    }

    ghost function TheBooks(): Books
      reads this`used, this`usage, this`sent, this`expired, this`written
    {
      Books(used, usage, sent, expired, written)
    }

    /** The ledger invariant, whatever the queues hold, and a serial line that carries what was sent. */
    ghost predicate LedgerOk()
      reads this`used, this`usage, this`sent, this`expired, this`written, clock
    {
      budget >= 0.0 && Sound(TheBooks(), clock.now, budget, radio)
    }

    /**
      At every moment of a call: every window is within budget, and the ledger has at most one entry per millisecond of
      it.
     */
    lemma Safe(from: real)
      requires LedgerOk()
      ensures WindowAir(sent, from) <= budget
      ensures |usage| as real * 0.001 <= budget
    {
      PacedIsSafe(sent, budget, from);
      LedgerWeights(used, usage, sent, expired, clock.now, budget);
    }

    function Air(payload: bytes): (a: real)
      ensures a >= 0.001
    {
      AirtimeSeconds(|payload|, radio)
    }

    /** Drops ledger entries one window old. */
    method Expire(now: real)
      requires LedgerOk() && now == clock.now
      modifies this`used, this`usage, this`expired
      ensures LedgerOk()
      ensures forall i :: 0 <= i < |usage| ==> now - usage[i].at < WINDOW
      ensures Unexpired(usage, now) == old(Unexpired(usage, now))
    {
      while usage != [] && now - usage[0].at >= WINDOW
        invariant LedgerOk()
        invariant Unexpired(usage, now) == old(Unexpired(usage, now))
        decreases |usage|
      {
        ExpireOldest(now);
      }
      LedgerAllLive(used, usage, sent, expired, now, budget);
    }

    method ExpireOldest(now: real)
      requires LedgerOk() && now == clock.now && usage != [] && now - usage[0].at >= WINDOW
      modifies this`used, this`usage, this`expired
      ensures LedgerOk() && usage == old(usage)[1..]
      ensures used == old(used) - old(usage)[0].air
    {
      LedgerExpire(used, usage, sent, expired, now, budget);
      var a := usage[0].air;
      usage := usage[1..];
      used := if used - a < 0.0 then 0.0 else used - a;
      expired := expired + 1;
    }

    /** Reads the clock and purges the ledger. */
    method Refresh() returns (now: real)
      requires LedgerOk()
      modifies this`used, this`usage, this`expired, clock
      ensures LedgerOk() && now == clock.now >= old(clock.now) && clock.lost - old(clock.lost) == now - old(clock.now)
      ensures forall i :: 0 <= i < |usage| ==> now - usage[i].at < WINDOW
      ensures Unexpired(usage, now) <= old(Unexpired(usage, clock.now))
    {
      now := clock.Monotonic();
      UnexpiredFalls(usage, old(clock.now), now);
      Expire(now);
    }

    /** The airtime of the payload whose turn it is, if there is one. */
    ghost function NextAir(): real
      reads this`order, this`queues
    {
      if order == [] || order[0] !in queues || queues[order[0]] == [] then 0.0 else Air(queues[order[0]][0])
    }

    ghost function Here(): Moment
      reads this`order, this`queues, this`sent, clock
    {
      Moment(order, queues, sent, clock.now, clock.lost, NextAir())
    }

    /**
      One turn of the flush loop. It keeps the ledger invariant for any queues whatsoever. It sleeps only if the budget
      refuses the payload whose turn it is, and for no longer than that, up to 10 ms and what the clock loses.
     */
    method FlushTurn() returns (o: Outcome)
      requires LedgerOk() && order != []
      modifies this, clock
      ensures LedgerOk() && clock.now >= old(clock.now) && clock.lost >= old(clock.lost)
      ensures Turned(o, old(Here()), Here())
      ensures Prompt(o, old(Here()), Here(), budget)
      ensures o == Slept ==> written == old(written)
      ensures o == Slept && clock.punctual && Air(queues[order[0]][0]) <= budget ==>
        Unexpired(usage, clock.now) < old(Unexpired(usage, clock.now))
    {
      var now := Refresh();
      ghost var read := Here();
      o := Turn(now);
      PromptSince(TheBooks(), o, old(Here()), read, Here(), budget);
    }

    /** The rest of a turn, once the clock has been read. */
    method Turn(now: real) returns (o: Outcome)
      requires LedgerOk() && now == clock.now && order != []
      requires forall i :: 0 <= i < |usage| ==> now - usage[i].at < WINDOW
      modifies this, clock
      ensures LedgerOk() && clock.now >= old(clock.now) && clock.lost >= old(clock.lost)
      ensures Turned(o, old(Here()), Here()) && Prompt(o, old(Here()), Here(), budget)
      ensures o == Slept ==> Refused(sent, now, old(NextAir()), budget)
      ensures o == Slept ==> written == old(written)
      ensures o == Slept && clock.punctual && Air(queues[order[0]][0]) <= budget ==>
        Unexpired(usage, clock.now) < old(Unexpired(usage, clock.now))
    {
      var sid := order[0];
      if sid !in queues || queues[sid] == [] {
        o := Drop(sid);
      } else {
        o := Serve(now, sid);
      }
    }

    /** A turn of a source with nothing queued. */
    method Drop(sid: Source) returns (o: Outcome)
      requires LedgerOk() && order != [] && order[0] == sid && (sid !in queues || queues[sid] == [])
      modifies this`order, this`queues
      ensures LedgerOk() && o == Dropped
      ensures Turned(o, old(Here()), Here())
    {
      order := order[1..];
      queues := queues - {sid};
      return Dropped;
    }

    /** A turn with something to send: sends it if the budget allows, and sleeps if not. */
    method Serve(now: real, sid: Source) returns (o: Outcome)
      requires LedgerOk() && now == clock.now
      requires order != [] && order[0] == sid && sid in queues && queues[sid] != []
      requires forall i :: 0 <= i < |usage| ==> now - usage[i].at < WINDOW
      modifies this, clock
      ensures LedgerOk() && clock.now >= old(clock.now) && clock.lost >= old(clock.lost) && o != Dropped
      ensures Turned(o, old(Here()), Here()) && Prompt(o, old(Here()), Here(), budget)
      ensures o == Slept ==> Refused(sent, now, old(NextAir()), budget)
      ensures o == Slept ==> written == old(written) && usage == old(usage)
      ensures o == Slept && clock.punctual && Air(queues[order[0]][0]) <= budget ==>
        Unexpired(usage, clock.now) < Unexpired(usage, now)
    {
      var payload := queues[sid][0];
      var a := Air(payload);
      if used + a > budget {
        Wait(now, a);
        return Slept;
      }
      SendHead(now, sid, payload, a);
      return Sent;
    }

    method SendHead(now: real, sid: Source, payload: bytes, a: real)
      requires LedgerOk() && now == clock.now && a == Air(payload) && used + a <= budget
      requires order != [] && order[0] == sid && sid in queues && queues[sid] != [] && queues[sid][0] == payload
      requires forall i :: 0 <= i < |usage| ==> now - usage[i].at < WINDOW
      modifies this, clock
      ensures LedgerOk() && clock.now >= old(clock.now) && clock.lost >= old(clock.lost)
      ensures Turned(Sent, old(Here()), Here()) && Prompt(Sent, old(Here()), Here(), budget)
    {
      Dequeue(sid);
      Transmit(sid, payload, now, a);
    }

    /** Takes the head payload off its queue and rotates the order. */
    method Dequeue(sid: Source)
      requires order != [] && order[0] == sid && sid in queues && queues[sid] != []
      modifies this`order, this`queues
      ensures order == RotatedOrder(old(order), old(queues)) && queues == QueuesAfter(old(order), old(queues))
    {
      queues := queues[sid := queues[sid][1..]];
      order := order[1..] + [sid];
      if queues[sid] == [] {
        queues := queues - {sid};
        order := RemoveFirst(order, sid);
      }
    }

    /** Sleeps until the oldest ledger entry is due to expire. */
    method Wait(now: real, ghost a: real)
      requires LedgerOk() && now == clock.now && used + a > budget
      requires usage != [] ==> now - usage[0].at < WINDOW
      modifies clock
      ensures LedgerOk() && clock.now >= old(clock.now) && clock.lost >= old(clock.lost)
      ensures Refused(sent, now, a, budget)
      ensures WokenInTime(sent, now, a, budget, clock.now - (clock.lost - old(clock.lost)))
      ensures clock.now <= old(clock.now) + WINDOW + (clock.lost - old(clock.lost))
      ensures clock.punctual && a <= budget ==> Unexpired(usage, clock.now) < Unexpired(usage, now)
    {
      var wait := if usage != [] then WINDOW - (now - usage[0].at) else WINDOW;
      var seconds := if wait > 0.01 then wait else 0.01;
      RefusedUntil(used, usage, sent, expired, now, budget, now, a);
      forall t | now <= t && !Refused(sent, t, a, budget) ensures now + seconds <= t + 0.01 {
        if usage == [] || t - usage[0].at < WINDOW {
          RefusedUntil(used, usage, sent, expired, now, budget, t, a);
        }
      }
      clock.Sleep(seconds);
      UnexpiredFalls(usage, now, clock.now);
    }

    /** Writes the frame, then books its airtime at the time the write has drained. */
    method Transmit(source: Source, payload: bytes, now: real, a: real)
      requires LedgerOk() && now == clock.now && a == Air(payload) && used + a <= budget
      requires forall i :: 0 <= i < |usage| ==> now - usage[i].at < WINDOW
      modifies this`written, this`usage, this`used, this`sent, clock
      ensures LedgerOk() && clock.now >= old(clock.now) && clock.lost >= old(clock.lost)
      ensures Extends(old(sent), sent, source, payload)
      ensures sent[|sent| - 1].admitted == now && sent[|sent| - 1].entry.at == clock.now
    {
      written := written + Kiss.Wire(Kiss.DataFrame(payload));
      var ts := clock.Monotonic();
      ghost var tx := Tx(source, payload, now, Entry(ts, a));
      FramesGrow(sent, tx);
      BookEntry(Entry(ts, a), tx);
    }

    /** Adds a ledger entry for a transmission that has drained. */
    method BookEntry(e: Entry, ghost tx: Tx)
      requires Ledger(used, usage, sent, expired, tx.admitted, budget)
      requires forall i :: 0 <= i < |usage| ==> tx.admitted - usage[i].at < WINDOW
      requires tx.entry == e && tx.admitted <= e.at && e.air >= 0.001 && used + e.air <= budget
      modifies this`usage, this`used, this`sent
      ensures Ledger(used, usage, sent, expired, e.at, budget)
      ensures sent == old(sent) + [tx]
    {
      LedgerSend(used, usage, sent, expired, tx.admitted, budget, tx);
      usage := usage + [e];
      used := used + e.air;
      sent := sent + [tx];
    }

    /** Puts an arriving payload on its source's queue; empty payloads are ignored. */
    method Enqueue(source: Source, payload: bytes)
      requires LedgerOk()
      modifies this`queues, this`order
      ensures LedgerOk()
      ensures payload == [] ==> order == old(order) && queues == old(queues)
      ensures payload != [] ==> order == if source in old(queues) then old(order) else old(order) + [source]
      ensures payload != [] ==> queues == Queueing(old(queues), source, payload)
    {
      if payload == [] {
        return;
      }
      if source !in queues {
        queues := queues[source := []];
        order := order + [source];
      }
      queues := queues[source := queues[source] + [payload]];
    }

    /**
      Any interleaving of arrivals and loop turns, over any non-decreasing clock and with payloads of any
      size, keeps the ledger invariant; by Safe the budget holds in every window throughout.
     */
    method Drive(events: seq<Event>)
      requires LedgerOk()
      modifies this, clock
      ensures LedgerOk()
      ensures old(sent) <= sent
    {
      for i := 0 to |events|
        invariant LedgerOk() && old(sent) <= sent
      {
        match events[i] {
          case Arrival(source, payload) =>
            Enqueue(source, payload);
          case Turn =>
            if order != [] {
              ghost var before := sent;
              var o := FlushTurn();
              assert sent[..|before|] == before;
            }
        }
      }
    }

    ghost predicate Fits(q: Queues)
    {
      forall s, i :: s in q && 0 <= i < |q[s]| ==> Air(q[s][i]) <= budget
    }

    /**
      Drain: with a punctual clock and payloads the budget can carry, flush terminates with nothing
      queued, having transmitted exactly the round-robin table of what was queued, each frame as soon as the budget
      allowed it once the one before had drained.
     */
    method Flush()
      requires LedgerOk() && Scheduled(order, queues) && Fits(queues) && clock.punctual
      modifies this, clock
      ensures LedgerOk() && clock.now >= old(clock.now)
      ensures order == [] && queues == map[]
      ensures |sent| >= |old(sent)| && sent[..|old(sent)|] == old(sent)
      ensures Log(sent[|old(sent)|..]) == RoundRobin(old(order), old(queues))
      ensures clock.lost >= old(clock.lost)
      ensures AllOnTime(ProgressOf(|old(sent)|, old(clock.now), old(clock.lost)), budget)
    {
      PlanIsRoundRobin(order, queues);
      FlushLoop();
    }

    /** The loop of flush, against the plan it follows. */
    method FlushLoop()
      requires LedgerOk() && Scheduled(order, queues) && Fits(queues) && clock.punctual
      modifies this, clock
      ensures LedgerOk() && clock.now >= old(clock.now)
      ensures order == [] && queues == map[]
      ensures |sent| >= |old(sent)| && sent[..|old(sent)|] == old(sent)
      ensures Log(sent[|old(sent)|..]) == Plan(old(order), old(queues))
      ensures clock.lost >= old(clock.lost)
      ensures AllOnTime(ProgressOf(|old(sent)|, old(clock.now), old(clock.lost)), budget)
    {
      assert sent[|sent|..] == [];
      ghost var from, start, lost := |sent|, clock.now, clock.lost;
      while order != []
        invariant LedgerOk() && Scheduled(order, queues) && Fits(queues) && clock.now >= old(clock.now)
        invariant |sent| >= |old(sent)| && sent[..|old(sent)|] == old(sent)
        invariant Log(sent[|old(sent)|..]) + Plan(order, queues) == Plan(old(order), old(queues))
        invariant clock.lost >= lost && InTime(ProgressOf(from, start, lost), budget)
        decreases Queued(order, queues), |order|, Unexpired(usage, clock.now)
      {
        ghost var before := Here();
        FitsAfter(order, queues);
        var o := TimedTurn(from, start, lost);
        TurnFollowsPlan(o, before, Here(), |old(sent)|);
      }
      assert queues == map[];
    }

    ghost function ProgressOf(from: nat, start: real, lost: real): Progress
      reads this`sent, this`order, this`queues, clock
    {
      Progress(from, start, lost, Here())
    }

    /** One turn of a well-formed schedule: nothing is kept waiting. */
    method TimedTurn(ghost from: nat, ghost start: real, ghost lost: real) returns (o: Outcome)
      requires LedgerOk() && Scheduled(order, queues) && order != [] && InTime(ProgressOf(from, start, lost), budget)
      modifies this, clock
      ensures LedgerOk() && clock.now >= old(clock.now) && clock.lost >= old(clock.lost)
      ensures Turned(o, old(Here()), Here())
      ensures InTime(ProgressOf(from, start, lost), budget)
      ensures o == Slept && clock.punctual && Air(queues[order[0]][0]) <= budget ==>
        Unexpired(usage, clock.now) < old(Unexpired(usage, clock.now))
    {
      assert order[0] in order;
      o := FlushTurn();
      if o == Sent {
        LastAir();
      }
      TurnKeepsTime(TheBooks(), o, budget, old(ProgressOf(from, start, lost)), Here());
    }

    lemma LastAir()
      requires LedgerOk() && sent != []
      ensures sent[|sent| - 1].entry.air == Air(sent[|sent| - 1].payload)
    {
    }

    /**
      Conversely, only payloads that fit are ever drained: if any number of turns leaves nothing to serve,
      every payload that was queued fits the budget. An oversized payload blocks its gateway for ever.
     */
    method Turns(n: nat)
      requires LedgerOk() && Scheduled(order, queues)
      modifies this, clock
      ensures LedgerOk() && Scheduled(order, queues)
      ensures order == [] ==> old(Fits(queues))
    {
      ghost var order0, queues0, from := order, queues, |sent|;
      assert sent[from..] == [];
      for i := 0 to n
        invariant LedgerOk() && Scheduled(order, queues) && from <= |sent|
        invariant Log(sent[from..]) + Plan(order, queues) == Plan(order0, queues0)
      {
        if order != [] {
          ghost var before := Here();
          var o := FlushTurn();
          TurnFollowsPlan(o, before, Here(), from);
        }
      }
      if order == [] {
        DrainedFits(order0, queues0, from);
      }
    }

    lemma DrainedFits(order: seq<Source>, queues: Queues, from: nat)
      requires LedgerOk() && Scheduled(order, queues) && from <= |sent|
      requires Log(sent[from..]) == Plan(order, queues)
      ensures Fits(queues)
    {
      PlanIsRoundRobin(order, queues);
      forall s, i | s in queues && 0 <= i < |queues[s]| ensures Air(queues[s][i]) <= budget {
        var k := SentSomewhere(order, queues, s, i, sent[from..]);
        SentFits(from + k);
      }
    }

    lemma SentFits(k: nat)
      requires LedgerOk() && k < |sent|
      ensures Air(sent[k].payload) <= budget
    {
      AdmittedFits(sent, budget, k);
    }

    lemma FitsAfter(order: seq<Source>, q: Queues)
      requires Scheduled(order, q) && order != [] && Fits(q)
      ensures Fits(QueuesAfter(order, q))
    {
      var q' := QueuesAfter(order, q);
      forall s, i | s in q' && 0 <= i < |q'[s]| ensures Air(q'[s][i]) <= budget {
        assert s in q && q'[s][i] == if s == order[0] then q[s][i + 1] else q[s][i];
      }
    }

    /**
      A whole call: since every arrival is flushed before the next is read, frames leave in arrival
      order and the queues never hold more than one payload.
     */
    method MqttToSerial(messages: seq<Send>)
      requires LedgerOk() && order == [] && queues == map[] && sent == [] && clock.punctual
      requires forall m :: m in messages ==> Air(m.payload) <= budget
      modifies this, clock
      ensures LedgerOk() && order == [] && queues == map[]
      ensures Log(sent) == NonEmpty(messages)
    {
      for i := 0 to |messages|
        invariant LedgerOk() && order == [] && queues == map[]
        invariant Log(sent) == NonEmpty(messages[..i])
      {
        assert messages[..i + 1][..i] == messages[..i];
        assert messages[i] in messages;
        Handle(messages[i]);
      }
      assert messages[..|messages|] == messages;
    }

    /** One message with nothing queued: it goes out as soon as the budget has room for it. */
    method Handle(m: Send)
      requires LedgerOk() && order == [] && queues == map[] && clock.punctual && Air(m.payload) <= budget
      modifies this, clock
      ensures LedgerOk() && order == [] && queues == map[]
      ensures Log(sent) == Log(old(sent)) + if m.payload == [] then [] else [m]
      ensures clock.lost >= old(clock.lost)
      ensures m.payload != [] ==> OneInTime(old(Here()), Here(), Air(m.payload), budget)
    {
      Enqueue(m.source, m.payload);
      if m.payload != [] {
        assert [] + [m.source] == [m.source] && [] + [m.payload] == [m.payload];
        FlushOne(m);
      }
    }

    method FlushOne(m: Send)
      requires LedgerOk() && order == [m.source] && queues == map[m.source := [m.payload]]
      requires clock.punctual && Air(m.payload) <= budget
      modifies this, clock
      ensures LedgerOk() && order == [] && queues == map[]
      ensures Log(sent) == Log(old(sent)) + [m]
      ensures clock.lost >= old(clock.lost)
      ensures OneInTime(old(Here()), Here(), Air(m.payload), budget)
    {
      PlanOfOne(m);
      PlanIsRoundRobin(order, queues);
      Flush();
      LogConcat(old(sent), sent[|old(sent)|..]);
      assert sent == old(sent) + sent[|old(sent)|..];
      LastWeighs(m, |old(sent)|);
      FirstInTime(old(Here()), Here(), Air(m.payload), budget,
                  ProgressOf(|old(sent)|, old(clock.now), old(clock.lost)));
    }

    lemma LastWeighs(m: Send, n: nat)
      requires LedgerOk() && n <= |sent| && Log(sent[n..]) == [m]
      ensures |sent| == n + 1 && sent[n].entry.air == Air(m.payload)
    {
      assert |Log(sent[n..])| == 1 && Log(sent[n..])[0] == m;
    }
  }

  /** One more transmission, of this payload for this source. */
  ghost predicate Extends(before: seq<Tx>, after: seq<Tx>, source: Source, payload: bytes) {
    && |after| == |before| + 1 && after[..|before|] == before
    && after[|before|].source == source && after[|before|].payload == payload
  }

  /**
    What a turn starts from and ends in: the queues, what has been sent, the clock, and the airtime of the next payload.
   */
  datatype Moment = Moment(order: seq<Source>, queues: Queues, sent: seq<Tx>, now: real, lost: real, air: real)

  /**
    Whether a turn wasted no time: it sleeps only if the payload was refused at some moment of it, and wakes in time,
    and it sends without sleeping, but for what the clock has lost meanwhile.
   */
  ghost predicate Prompt(o: Outcome, a: Moment, b: Moment, budget: real) {
    match o
    case Dropped => b.now <= a.now + (b.lost - a.lost)
    case Slept =>
      && (exists t :: a.now <= t <= b.now && Refused(a.sent, t, a.air, budget))
      && WokenInTime(a.sent, a.now, a.air, budget, b.now - (b.lost - a.lost))
    case Sent =>
      b.sent != [] && var tx := b.sent[|b.sent| - 1]; tx.admitted <= a.now + (b.lost - a.lost) && tx.entry.at == b.now
  }

  /** When transmission k could go out as far as the loop is concerned: as soon as the one before had drained. */
  function ReadyAt(sent: seq<Tx>, k: nat, from: nat, start: real): real
    requires from <= k <= |sent|
  {
    if k == from then start else sent[k - 1].entry.at
  }

  /** This transmission was admitted within 10 ms of when the budget had room for it, but for what the clock lost. */
  ghost predicate Punctual(before: seq<Tx>, since: real, tx: Tx, budget: real, lost: real) {
    WokenInTime(before, since, tx.entry.air, budget, tx.admitted - lost)
  }

  /** So was each from number `from` on. */
  ghost predicate OnTime(sent: seq<Tx>, from: nat, start: real, budget: real, lost: real) {
    |sent| <= from
    || (var n := |sent| - 1;
        && OnTime(sent[..n], from, start, budget, lost)
        && Punctual(sent[..n], ReadyAt(sent, n, from, start), sent[n], budget, lost))
  }

  lemma {:induction false} EachOnTime(sent: seq<Tx>, from: nat, start: real, budget: real, lost: real, k: nat)
    requires OnTime(sent, from, start, budget, lost) && from <= k < |sent|
    ensures Punctual(sent[..k], ReadyAt(sent, k, from, start), sent[k], budget, lost)
  {
    var n := |sent| - 1;
    if k < n {
      EachOnTime(sent[..n], from, start, budget, lost, k);
      assert sent[..n][..k] == sent[..k];
    }
  }

  /** How far a flush has got that found `from` transmissions, at `start`, when the clock had lost `lost`. */
  datatype Progress = Progress(from: nat, start: real, lost: real, at: Moment)

  ghost predicate AllOnTime(p: Progress, budget: real) {
    OnTime(p.at.sent, p.from, p.start, budget, p.at.lost - p.lost)
  }

  /** So far so good, and the payload whose turn it is has not been kept waiting either. */
  ghost predicate InTime(p: Progress, budget: real) {
    && p.from <= |p.at.sent| && p.at.lost >= p.lost && AllOnTime(p, budget)
    && ReadyAt(p.at.sent, |p.at.sent|, p.from, p.start) <= p.at.now
    && WokenInTime(p.at.sent, ReadyAt(p.at.sent, |p.at.sent|, p.from, p.start), p.at.air, budget,
                   p.at.now - (p.at.lost - p.lost))
  }

  /** One transmission, admitted within 10 ms of when the budget had room for it, but for what the clock lost. */
  ghost predicate OneInTime(a: Moment, b: Moment, air: real, budget: real) {
    && |b.sent| == |a.sent| + 1 && b.sent[..|a.sent|] == a.sent
    && WokenInTime(a.sent, a.now, air, budget, b.sent[|a.sent|].admitted - (b.lost - a.lost))
  }

  lemma FirstInTime(a: Moment, b: Moment, air: real, budget: real, p: Progress)
    requires p == Progress(|a.sent|, a.now, a.lost, b) && AllOnTime(p, budget)
    requires |b.sent| == |a.sent| + 1 && b.sent[..|a.sent|] == a.sent && b.sent[|a.sent|].entry.air == air
    ensures OneInTime(a, b, air, budget)
  {
    EachOnTime(b.sent, |a.sent|, a.now, budget, b.lost - a.lost, |a.sent|);
  }

  /** What the clock loses later excuses no less. */
  lemma {:induction false} StillOnTime(sent: seq<Tx>, from: nat, start: real, budget: real, lost: real, more: real)
    requires OnTime(sent, from, start, budget, lost) && lost <= more
    ensures OnTime(sent, from, start, budget, more)
  {
    if |sent| > from {
      var n := |sent| - 1;
      StillOnTime(sent[..n], from, start, budget, lost, more);
      WokenEarlier(sent[..n], ReadyAt(sent, n, from, start), sent[n].entry.air, budget, sent[n].admitted - lost,
                   sent[n].admitted - more);
    }
  }

  lemma WokenEarlier(sent: seq<Tx>, since: real, air: real, budget: real, woken: real, earlier: real)
    requires WokenInTime(sent, since, air, budget, woken) && earlier <= woken
    ensures WokenInTime(sent, since, air, budget, earlier)
  {
  }

  lemma SleepKeepsTime(books: Books, budget: real, p: Progress, b: Moment)
    requires Ledger(books.used, books.usage, books.sent, books.expired, b.now, budget)
    requires books.sent == p.at.sent == b.sent
    requires InTime(p, budget) && p.at.now <= b.now && p.at.lost <= b.lost && b.air == p.at.air
    requires Prompt(Slept, p.at, b, budget)
    ensures InTime(p.(at := b), budget)
  {
    var a, ready := p.at, ReadyAt(p.at.sent, |p.at.sent|, p.from, p.start);
    StillOnTime(a.sent, p.from, p.start, budget, a.lost - p.lost, b.lost - p.lost);
    var t :| a.now <= t <= b.now && Refused(a.sent, t, a.air, budget);
    WokenLater(a.sent, a.now, t, a.air, budget, b.now - (b.lost - a.lost));
    WokenSince(books.used, books.usage, a.sent, books.expired, b.now, budget, ready, t, a.air,
               b.now - (b.lost - a.lost), b.now - (b.lost - p.lost));
  }

  lemma WokenLater(sent: seq<Tx>, since: real, later: real, air: real, budget: real, woken: real)
    requires WokenInTime(sent, since, air, budget, woken) && since <= later
    ensures WokenInTime(sent, later, air, budget, woken)
  {
  }

  lemma SendKeepsTime(budget: real, p: Progress, tx: Tx, b: Moment)
    requires InTime(p, budget) && b.sent == p.at.sent + [tx] && tx.entry.air == p.at.air && p.at.lost <= b.lost
    requires tx.admitted <= p.at.now + (b.lost - p.at.lost) && tx.entry.at == b.now
    ensures InTime(p.(at := b), budget)
  {
    var a, ready := p.at, ReadyAt(p.at.sent, |p.at.sent|, p.from, p.start);
    StillOnTime(a.sent, p.from, p.start, budget, a.lost - p.lost, b.lost - p.lost);
    WokenEarlier(a.sent, ready, a.air, budget, a.now - (a.lost - p.lost), tx.admitted - (b.lost - p.lost));
    assert b.sent[..|a.sent|] == a.sent;
  }

  lemma TurnKeepsTime(books: Books, o: Outcome, budget: real, p: Progress, b: Moment)
    requires Ledger(books.used, books.usage, books.sent, books.expired, b.now, budget) && books.sent == b.sent
    requires InTime(p, budget) && p.at.now <= b.now && p.at.lost <= b.lost && p.at.order != []
    requires o != Dropped && Turned(o, p.at, b) && Prompt(o, p.at, b, budget)
    requires o == Slept ==> b.air == p.at.air
    requires o == Sent ==> b.sent[|b.sent| - 1].entry.air == p.at.air
    ensures InTime(p.(at := b), budget)
  {
    if o == Slept {
      SleepKeepsTime(books, budget, p, b);
    } else {
      var tx := b.sent[|b.sent| - 1];
      assert b.sent == p.at.sent + [tx];
      SendKeepsTime(budget, p, tx, b);
    }
  }

  /** Reading the clock before the turn costs only what it loses. */
  lemma PromptSince(books: Books, o: Outcome, a: Moment, read: Moment, b: Moment, budget: real)
    requires Ledger(books.used, books.usage, books.sent, books.expired, b.now, budget) && a.now <= read.now <= b.now
    requires read == a.(now := read.now, lost := a.lost + (read.now - a.now)) && a.order != []
    requires o == Slept ==> books.sent == a.sent && Refused(a.sent, read.now, a.air, budget)
    requires Turned(o, read, b) && Prompt(o, read, b, budget)
    ensures Turned(o, a, b) && Prompt(o, a, b, budget)
  {
    if o == Slept {
      WokenSince(books.used, books.usage, a.sent, books.expired, b.now, budget, a.now, read.now, a.air,
                 b.now - (b.lost - read.lost), b.now - (b.lost - a.lost));
    }
  }

  /** The effect of one turn: drop an idle source, wait, or send the head of the head's queue and rotate. */
  ghost predicate Turned(o: Outcome, a: Moment, b: Moment)
    requires a.order != []
  {
    var s := a.order[0];
    var idle := s !in a.queues || a.queues[s] == [];
    match o
    case Dropped => idle && b.order == a.order[1..] && b.queues == a.queues - {s} && b.sent == a.sent
    case Slept => !idle && b.order == a.order && b.queues == a.queues && b.sent == a.sent
    case Sent =>
      && !idle && b.order == RotatedOrder(a.order, a.queues) && b.queues == QueuesAfter(a.order, a.queues)
      && Extends(a.sent, b.sent, s, a.queues[s][0])
  }

  /** What the round robin transmits includes every queued payload. */
  lemma SentSomewhere(order: seq<Source>, queues: Queues, s: Source, i: nat, sent: seq<Tx>) returns (k: nat)
    requires Scheduled(order, queues) && s in queues && i < |queues[s]|
    requires Log(sent) == RoundRobin(order, queues)
    ensures k < |sent| && sent[k].payload == queues[s][i]
  {
    RoundRobinExact(order, queues);
    var pos :| 0 <= pos < |order| && order[pos] == s;
    var slots := SlotsFrom(order, queues, 0, 0);
    assert IsSlot(order, queues, Slot(i, pos));
    k :| 0 <= k < |slots| && slots[k] == Slot(i, pos);
    assert Log(sent)[k] == Send(s, queues[s][i]);
  }

  lemma Reassociate(a: seq<Send>, x: Send, b: seq<Send>)
    ensures a + [x] + b == a + ([x] + b)
  {
  }

  /** A turn of a well-formed schedule transmits what the plan says next. */
  lemma TurnFollowsPlan(o: Outcome, a: Moment, b: Moment, from: nat)
    requires a.order != [] && Scheduled(a.order, a.queues) && from <= |a.sent|
    requires Turned(o, a, b)
    ensures Scheduled(b.order, b.queues) && |b.sent| >= |a.sent| && b.sent[..from] == a.sent[..from]
    ensures Log(b.sent[from..]) + Plan(b.order, b.queues) == Log(a.sent[from..]) + Plan(a.order, a.queues)
    ensures o == Slept || (o == Sent && Queued(b.order, b.queues) < Queued(a.order, a.queues))
  {
    assert a.order[0] in a.order;
    if o == Sent {
      RotationServes(a.order, a.queues);
      LogGrows(a.sent, b.sent, from);
      Reassociate(Log(a.sent[from..]), Send(a.order[0], a.queues[a.order[0]][0]), Plan(b.order, b.queues));
    }
  }

  function Queueing(queues: Queues, source: Source, payload: bytes): Queues {
    queues[source := (if source in queues then queues[source] else []) + [payload]]
  }

  /** The order after serving its head: rotated, and the head removed again once its queue is empty. */
  function RotatedOrder(order: seq<Source>, queues: Queues): seq<Source>
    requires order != [] && order[0] in queues
  {
    var rotated := order[1..] + [order[0]];
    if |queues[order[0]]| > 1 then rotated else RemoveFirst(rotated, order[0])
  }

  lemma RotationServes(order: seq<Source>, queues: Queues)
    requires Scheduled(order, queues) && order != []
    ensures RotatedOrder(order, queues) == OrderAfter(order, queues)
    ensures Scheduled(OrderAfter(order, queues), QueuesAfter(order, queues))
    ensures Queued(OrderAfter(order, queues), QueuesAfter(order, queues)) == Queued(order, queues) - 1
    ensures Plan(order, queues) ==
      [Send(order[0], queues[order[0]][0])] + Plan(OrderAfter(order, queues), QueuesAfter(order, queues))
  {
    ServeKeepsSchedule(order, queues);
    RemoveFirstLast(order[1..], order[0]);
  }

  lemma PlanOfOne(m: Send)
    ensures Scheduled([m.source], map[m.source := [m.payload]])
    ensures Plan([m.source], map[m.source := [m.payload]]) == [m]
  {
  }

  ghost function Log(sent: seq<Tx>): seq<Send> {
    seq(|sent|, i requires 0 <= i < |sent| => Send(sent[i].source, sent[i].payload))
  }

  lemma LogGrows(sent: seq<Tx>, more: seq<Tx>, from: nat)
    requires from <= |sent| && |more| == |sent| + 1 && more[..|sent|] == sent
    ensures more[..from] == sent[..from]
    ensures Log(more[from..]) == Log(sent[from..]) + [Send(more[|sent|].source, more[|sent|].payload)]
  {
    assert more[from..] == sent[from..] + [more[|sent|]];
  }

  lemma LogConcat(a: seq<Tx>, b: seq<Tx>)
    ensures Log(a + b) == Log(a) + Log(b)
  {
  }

  function NonEmpty(messages: seq<Send>): seq<Send> {
    if messages == [] then []
    else
      var n := |messages| - 1;
      NonEmpty(messages[..n]) + if messages[n].payload == [] then [] else [messages[n]]
  }

  // ---- what the modem reads off the serial line ----

  ghost function DataFrames(sent: seq<Tx>): (fs: seq<Kiss.KissFrame>)
    ensures |fs| == |sent|
    ensures forall f :: f in fs ==> Kiss.Encodable(f) && Kiss.Faithful(f)
  {
    if sent == [] then [] else [Kiss.DataFrame(sent[0].payload)] + DataFrames(sent[1..])
  }

  lemma {:induction false} FramesGrow(sent: seq<Tx>, tx: Tx)
    ensures Kiss.WireAll(DataFrames(sent + [tx]))
      == Kiss.WireAll(DataFrames(sent)) + Kiss.Wire(Kiss.DataFrame(tx.payload))
  {
    if sent == [] {
      assert sent + [tx] == [tx];
    } else {
      assert (sent + [tx])[1..] == sent[1..] + [tx];
      FramesGrow(sent[1..], tx);
      var fs := DataFrames(sent);
      var more := DataFrames(sent + [tx]);
      assert more[1..] == DataFrames(sent[1..] + [tx]) && fs[1..] == DataFrames(sent[1..]);
    }
  }

  /** Whatever the modem was doing before, it reads back exactly the payloads sent, in order. */
  lemma SerialDelivers(s: Kiss.State, sent: seq<Tx>)
    requires sent != []
    ensures Kiss.Run(s, Kiss.WireAll(DataFrames(sent))).frames == Kiss.Leftover(s) + DataFrames(sent)
  {
    Kiss.ResyncAndRoundTrip(s, DataFrames(sent));
  }
}
