/**
  Concurrent post pushes (push_post in protocol.py, deliver_room_push_with_ack in room.py) as a transition system:
  any number of background pushes, each going through its attempts, interleaved at their await points with each
  other, with arriving ACKs, with timeouts and with logins.
 */
module PushRuns {
  import opened Bytes
  import AckTable
  import opened Crypto
  import Room
  import opened Wrappers
  import opened Messaging
  import Store

  /** One post on its way to one client: what its successive attempts publish, and the hashes they wait for. */
  datatype Push = Push(pub: bytes, ts: int, wires: seq<bytes>, hashes: seq<bytes>)

  /** The push a delivery of `j` amounts to, when its route is usable so that no attempt fails to encode. */
  function PushOf(c: Suite, j: Room.PushJob): (p: Push)
    requires Room.ValidPush(j) && j.direct >= 0 && j.flood >= 0
    ensures p.pub == j.destPubKey && p.ts == j.postTs && |p.hashes| == |p.wires| == |Room.PushAttempts(j)|
    ensures forall i :: 0 <= i < |p.hashes| && Room.PushShots(c, j)[i].Success? ==>
      p.hashes[i] == Room.PushShots(c, j)[i].value.ackHash && p.wires[i] == Room.PushShots(c, j)[i].value.wire
  {
    var shots := Room.PushShots(c, j);
    Push(j.destPubKey, j.postTs,
         seq(|shots|, i requires 0 <= i < |shots| => if shots[i].Success? then shots[i].value.wire else []),
         seq(|Room.PushAttempts(j)|, i requires 0 <= i =>
           Room.PushAckHash(c, j.postTs, i % 4, j.author, j.text, j.destPubKey)))
  }

  /**
    Between attempts, with an attempt published, waiting with a future, acknowledged but not yet booked, or over.
    `since` is where the task's own wait began in the log of the waiter table; `known` is whether the client had a row
    to book in.
   */
  datatype Progress =
    | Ready(attempt: nat)
    | Sent(attempt: nat)
    | Waiting(attempt: nat, wait: nat, since: nat)
    | Acknowledged(attempt: nat, wait: nat, since: nat)
    | Booked(attempt: nat, wait: nat, since: nat, known: bool)
    | GaveUp

  datatype Task = Task(push: Push, progress: Progress)

  /** A packet published, and the task that published it. */
  datatype Out = Out(task: nat, wire: bytes)

  datatype State = State(acks: AckTable.State, tasks: map<nat, Task>, clients: Store.Clients, air: seq<Out>)

  datatype Step =
    | Spawn(task: nat, push: Push)
    | Publish(task: nat)
    | Fire(task: nat, wait: nat)
    | AckArrives(hash: bytes)
    | TimesOut(wait: nat)
    | Resume(task: nat, result: bool)
    | Book(task: nat)
    | LogsIn(pub: bytes, name: bytes, isAdmin: bool, now: int)

  /** The step of the waiter table that a step of the system takes. */
  function Event(s: State, e: Step): seq<AckTable.Event> {
    match e
    case Fire(t, w) =>
      if t in s.tasks && s.tasks[t].progress.Sent? && s.tasks[t].progress.attempt < |s.tasks[t].push.hashes|
      then [AckTable.Register(w, s.tasks[t].push.hashes[s.tasks[t].progress.attempt])] else []
    case AckArrives(h) => [AckTable.Resolve(h)]
    case TimesOut(w) => [AckTable.Cancel(w)]
    case Resume(t, result) =>
      if t in s.tasks && s.tasks[t].progress.Waiting? then [AckTable.Finish(s.tasks[t].progress.wait, result)] else []
    case _ => []
  }

  predicate Enabled(s: State, e: Step) {
    match e
    case Spawn(t, push) => t !in s.tasks && |push.wires| == |push.hashes|
    case Publish(t) => t in s.tasks && s.tasks[t].progress.Ready?
      && s.tasks[t].progress.attempt < |s.tasks[t].push.wires|
    case Fire(_, _) => Event(s, e) != [] && AckTable.Enabled(s.acks, Event(s, e)[0])
    case AckArrives(_) => true
    case TimesOut(w) => AckTable.Enabled(s.acks, AckTable.Cancel(w))
    case Resume(_, _) => Event(s, e) != [] && AckTable.Enabled(s.acks, Event(s, e)[0])
    case Book(t) => t in s.tasks && s.tasks[t].progress.Acknowledged?
    case LogsIn(_, _, _, _) => true
  }

  /** The attempt after an unacknowledged one, or the end of the push. */
  function NextAttempt(push: Push, attempt: nat): Progress {
    if attempt + 1 < |push.hashes| then Ready(attempt + 1) else GaveUp
  }

  function TasksAfter(s: State, e: Step): map<nat, Task>
    requires Enabled(s, e)
  {
    match e
    case Spawn(t, push) => s.tasks[t := Task(push, if push.hashes == [] then GaveUp else Ready(0))]
    case Publish(t) => s.tasks[t := s.tasks[t].(progress := Sent(s.tasks[t].progress.attempt))]
    case Fire(t, w) => s.tasks[t := s.tasks[t].(progress := Waiting(s.tasks[t].progress.attempt, w, |s.acks.log|))]
    case Resume(t, result) =>
      var p := s.tasks[t].progress;
      s.tasks[t := s.tasks[t].(progress :=
        if result then Acknowledged(p.attempt, p.wait, p.since) else NextAttempt(s.tasks[t].push, p.attempt))]
    case Book(t) =>
      var p := s.tasks[t].progress;
      s.tasks[t := s.tasks[t].(progress := Booked(p.attempt, p.wait, p.since, s.tasks[t].push.pub in s.clients))]
    case _ => s.tasks
  }

  function ClientsAfter(s: State, e: Step): Store.Clients
    requires Enabled(s, e)
  {
    match e
    case Book(t) => Store.Applied(s.clients, Store.Acked(s.tasks[t].push.pub, s.tasks[t].push.ts))
    case LogsIn(pub, name, isAdmin, now) => Store.Applied(s.clients, Store.Login(pub, name, isAdmin, now))
    case _ => s.clients
  }

  function AcksAfter(s: State, e: Step): AckTable.State
    requires Enabled(s, e)
  {
    if Event(s, e) == [] then s.acks else AckTable.After(s.acks, Event(s, e)[0])
  }

  function AirAfter(s: State, e: Step): seq<Out>
    requires Enabled(s, e)
  {
    match e
    case Publish(t) => s.air + [Out(t, s.tasks[t].push.wires[s.tasks[t].progress.attempt])]
    case _ => s.air
  }

  function After(s: State, e: Step): State
    requires Enabled(s, e)
  {
    State(AcksAfter(s, e), TasksAfter(s, e), ClientsAfter(s, e), AirAfter(s, e))
  }

  // ---- what every run keeps ----

  /** Waits in progress and waiting tasks correspond, one to one, on the same hash. */
  ghost predicate WaitsMatch(s: State) {
    TasksWait(s) && WaitsApart(s) && WaitsOwned(s)
  }

  ghost predicate TasksWait(s: State) {
    forall t :: t in s.tasks && s.tasks[t].progress.Waiting? ==> WaitInPlace(s, s.tasks[t])
  }

  ghost predicate WaitInPlace(s: State, t: Task)
    requires t.progress.Waiting?
  {
    && t.progress.attempt < |t.push.hashes|
    && t.progress.wait in s.acks.waits
    && s.acks.waits[t.progress.wait].hash == t.push.hashes[t.progress.attempt]
    && t.progress.wait in s.acks.began && s.acks.began[t.progress.wait] == t.progress.since
  }

  ghost predicate WaitsApart(s: State) {
    forall t, u, w :: WaitsFor(s, t, w) && WaitsFor(s, u, w) ==> t == u
  }

  ghost predicate WaitsOwned(s: State) {
    forall w :: w in s.acks.waits ==> exists t :: WaitsFor(s, t, w)
  }

  ghost predicate WaitsFor(s: State, t: nat, w: nat) {
    t in s.tasks && s.tasks[t].progress.Waiting? && s.tasks[t].progress.wait == w
  }

  /** The wait w for this hash began at step `since`, and an ACK for it arrived before that wait was over. */
  ghost predicate Confirmed(log: seq<AckTable.Event>, since: nat, w: nat, hash: bytes) {
    && since < |log| && log[since] == AckTable.Register(w, hash)
    && exists k :: since < k < |log| && log[k] == AckTable.Resolve(hash) && Unfinished(log, since, k, w)
  }

  ghost predicate Unfinished(log: seq<AckTable.Event>, from: nat, to: nat, w: nat)
    requires to <= |log|
  {
    forall i, r :: from < i < to ==> log[i] != AckTable.Finish(w, r)
  }

  predicate IsAcked(p: Progress) {
    p.Acknowledged? || p.Booked?
  }

  /** A push counts as acknowledged only on the strength of an ACK for the attempt that was waiting. */
  ghost predicate AckedConfirmed(s: State) {
    forall t :: t in s.tasks && IsAcked(s.tasks[t].progress) ==>
      && s.tasks[t].progress.attempt < |s.tasks[t].push.hashes|
      && OwnConfirmed(s, s.tasks[t])
  }

  /** The attempt the task was waiting for was acknowledged during the task's own wait. */
  ghost predicate OwnConfirmed(s: State, t: Task)
    requires IsAcked(t.progress) && t.progress.attempt < |t.push.hashes|
  {
    Confirmed(s.acks.log, t.progress.since, t.progress.wait, t.push.hashes[t.progress.attempt])
  }

  /** Task t booked this timestamp for a client known by then. */
  ghost predicate BookedFor(s: State, t: nat, pub: bytes, ts: int) {
    && t in s.tasks && s.tasks[t].progress.Booked? && s.tasks[t].progress.known
    && s.tasks[t].push.pub == pub && s.tasks[t].push.ts == ts
  }

  /** Where a client's cursor starts: at its row's value, or at 0 for a client that first logs in later. */
  function Base(start: Store.Clients, pub: bytes): int {
    if pub in start then start[pub].lastTimestamp else 0
  }

  /** A client's cursor is the maximum of where it started and the timestamps booked for it. */
  ghost predicate CursorExact(start: Store.Clients, s: State, pub: bytes)
    requires pub in s.clients
  {
    var cursor := s.clients[pub].lastTimestamp;
    && cursor >= Base(start, pub)
    && (forall t, ts :: BookedFor(s, t, pub, ts) ==> cursor >= ts)
    && (cursor == Base(start, pub) || exists t :: BookedFor(s, t, pub, cursor))
  }

  /**
    So it is for every client, and clients stay known: nothing is booked in vain for one that was there at the start.
   */
  ghost predicate CursorsExact(start: Store.Clients, s: State) {
    && (forall pub :: pub in s.clients ==> CursorExact(start, s, pub))
    && (forall pub :: pub in start ==> pub in s.clients)
    && (forall t :: t in s.tasks && s.tasks[t].progress.Booked? && s.tasks[t].push.pub in start ==>
          s.tasks[t].progress.known)
    && (forall t :: t in s.tasks && s.tasks[t].progress.Booked? && s.tasks[t].progress.known ==>
          s.tasks[t].push.pub in s.clients)
  }

  /** What a task has published, in order. */
  function WiresOf(air: seq<Out>, t: nat): seq<bytes> {
    if air == [] then []
    else
      var last := air[|air| - 1];
      WiresOf(air[..|air| - 1], t) + if last.task == t then [last.wire] else []
  }

  /** How many attempts have been published at this point of a push. */
  function Made(task: Task): nat {
    match task.progress
    case Ready(attempt) => attempt
    case GaveUp => |task.push.wires|
    case _ => task.progress.attempt + 1
  }

  /**
    Each task has published its own attempts in order, as many as it has made, whatever others published in between.
   */
  ghost predicate AirOk(s: State) {
    && (forall t :: t in s.tasks ==> AirOf(s, t))
    && (forall t: nat :: t !in s.tasks ==> WiresOf(s.air, t) == [])
  }

  ghost predicate AirOf(s: State, t: nat)
    requires t in s.tasks
  {
    var task := s.tasks[t];
    && |task.push.wires| == |task.push.hashes|
    && (!task.progress.GaveUp? ==> task.progress.attempt < |task.push.wires|)
    && WiresOf(s.air, t) == task.push.wires[..Made(task)]
  }

  lemma AirGrows(s: State, e: Step, t: nat)
    requires Enabled(s, e)
    ensures WiresOf(AirAfter(s, e), t) ==
      WiresOf(s.air, t) + if e == Publish(t) then [s.tasks[t].push.wires[s.tasks[t].progress.attempt]] else []
  {
    if e.Publish? {
      assert AirAfter(s, e)[..|s.air|] == s.air;
    }
  }

  lemma StepKeepsAirOf(s: State, e: Step, t: nat)
    requires Enabled(s, e) && t in s.tasks && AirOf(s, t)
    ensures t in After(s, e).tasks && AirOf(After(s, e), t)
  {
    AirGrows(s, e, t);
    if e == Publish(t) {
      var a, wires := s.tasks[t].progress.attempt, s.tasks[t].push.wires;
      assert wires[..a + 1] == wires[..a] + [wires[a]];
    }
  }

  lemma StepKeepsAir(s: State, e: Step)
    requires AirOk(s) && Enabled(s, e)
    ensures AirOk(After(s, e))
  {
    var s' := After(s, e);
    forall t: nat ensures if t in s'.tasks then AirOf(s', t) else WiresOf(s'.air, t) == [] {
      if t in s.tasks {
        StepKeepsAirOf(s, e, t);
      } else {
        AirGrows(s, e, t);
      }
    }
  }

  ghost predicate Inv(start: Store.Clients, s: State) {
    AckTable.Inv(s.acks) && WaitsMatch(s) && AckedConfirmed(s) && CursorsExact(start, s) && AirOk(s)
  }

  lemma StepKeepsAcks(s: State, e: Step)
    requires AckTable.Inv(s.acks) && Enabled(s, e)
    ensures AckTable.Inv(AcksAfter(s, e))
    ensures AcksAfter(s, e).log == s.acks.log + Event(s, e)
  {
    if Event(s, e) != [] {
      AckTable.StepKeepsInv(s.acks, Event(s, e)[0]);
    }
  }

  /** Only a finishing wait disappears, only a firing attempt adds one, and no wait changes its hash. */
  lemma WaitsChange(s: State, e: Step, w: nat)
    requires Enabled(s, e)
    ensures var waits' := AcksAfter(s, e).waits;
      && (w in waits' <==> (w in s.acks.waits && !(e.Resume? && WaitsFor(s, e.task, w))) || (e.Fire? && w == e.wait))
      && (w in waits' && w in s.acks.waits ==> waits'[w].hash == s.acks.waits[w].hash)
      && (e.Fire? && w == e.wait ==> waits'[w].hash == s.tasks[e.task].push.hashes[s.tasks[e.task].progress.attempt])
    ensures var began' := AcksAfter(s, e).began;
      && (e.Fire? && w == e.wait ==> w in began' && began'[w] == |s.acks.log|)
      && (!(e.Fire? && w == e.wait) && w in s.acks.began ==> w in began' && began'[w] == s.acks.began[w])
  {
  }

  lemma WaitsForChange(s: State, e: Step, t: nat, w: nat)
    requires Enabled(s, e)
    ensures WaitsFor(After(s, e), t, w) <==>
      (WaitsFor(s, t, w) && !(e.Resume? && e.task == t)) || (e.Fire? && e.task == t && e.wait == w)
  {
  }

  lemma StepKeepsTasksWait(s: State, e: Step)
    requires WaitsMatch(s) && Enabled(s, e)
    ensures TasksWait(After(s, e))
  {
    var s' := After(s, e);
    forall t | t in s'.tasks && s'.tasks[t].progress.Waiting? ensures WaitInPlace(s', s'.tasks[t]) {
      var w := s'.tasks[t].progress.wait;
      assert WaitsFor(s', t, w);
      WaitsForChange(s, e, t, w);
      WaitsChange(s, e, w);
      assert forall u :: WaitsFor(s, u, w) && WaitsFor(s, t, w) ==> u == t;
      if !(e.Fire? && e.task == t) {
        assert s'.tasks[t] == s.tasks[t] && WaitInPlace(s, s.tasks[t]);
      }
    }
  }

  lemma StepKeepsApart(s: State, e: Step)
    requires WaitsMatch(s) && Enabled(s, e)
    ensures WaitsApart(After(s, e))
  {
    var s' := After(s, e);
    forall t, u, w | WaitsFor(s', t, w) && WaitsFor(s', u, w) ensures t == u {
      WaitsForChange(s, e, t, w);
      WaitsForChange(s, e, u, w);
      forall v | WaitsFor(s, v, w) ensures w in s.acks.waits {
        assert WaitInPlace(s, s.tasks[v]);
      }
    }
  }

  lemma StepKeepsOwned(s: State, e: Step)
    requires WaitsMatch(s) && Enabled(s, e)
    ensures WaitsOwned(After(s, e))
  {
    var s' := After(s, e);
    forall w | w in s'.acks.waits ensures exists u :: WaitsFor(s', u, w) {
      WaitsChange(s, e, w);
      if e.Fire? && w == e.wait {
        WaitsForChange(s, e, e.task, w);
      } else {
        var u :| WaitsFor(s, u, w);
        WaitsForChange(s, e, u, w);
      }
    }
  }

  lemma ConfirmedGrows(log: seq<AckTable.Event>, more: seq<AckTable.Event>, since: nat, w: nat, hash: bytes)
    requires Confirmed(log, since, w, hash)
    ensures Confirmed(log + more, since, w, hash)
  {
    var k :| since < k < |log| && log[k] == AckTable.Resolve(hash) && Unfinished(log, since, k, w);
    assert (log + more)[k] == log[k] && Unfinished(log + more, since, k, w);
  }

  /** A wait whose future is resolved has been confirmed. */
  lemma ResolvedConfirmed(acks: AckTable.State, w: nat)
    requires AckTable.Inv(acks) && w in acks.waits && acks.waits[w].phase == AckTable.Resolved
    ensures w in acks.began && Confirmed(acks.log, acks.began[w], w, acks.waits[w].hash)
  {
    var hash, since := acks.waits[w].hash, acks.began[w];
    assert AckTable.WaitTraced(acks.log, w, acks.waits[w], since);
    var k: nat :| since < k < |acks.log| && acks.log[k] == AckTable.Resolve(hash);
    assert Unfinished(acks.log, since, k, w);
  }

  lemma StepKeepsConfirmed(s: State, e: Step)
    requires AckTable.Inv(s.acks) && WaitsMatch(s) && AckedConfirmed(s) && Enabled(s, e)
    ensures AckedConfirmed(After(s, e))
  {
    var t := After(s, e);
    StepKeepsAcks(s, e);
    forall u | u in t.tasks && IsAcked(t.tasks[u].progress)
      ensures t.tasks[u].progress.attempt < |t.tasks[u].push.hashes| && OwnConfirmed(t, t.tasks[u])
    {
      var p, hashes := t.tasks[u].progress, s.tasks[u].push.hashes;
      if e.Resume? && e.task == u {
        assert WaitInPlace(s, s.tasks[u]);
        ResolvedConfirmed(s.acks, p.wait);
      } else {
        assert IsAcked(s.tasks[u].progress) && OwnConfirmed(s, s.tasks[u]);
      }
      ConfirmedGrows(s.acks.log, Event(s, e), p.since, p.wait, hashes[p.attempt]);
    }
  }

  lemma BookedStays(s: State, e: Step, t: nat, pub: bytes, ts: int)
    requires Enabled(s, e)
    ensures BookedFor(s, t, pub, ts) ==> BookedFor(After(s, e), t, pub, ts)
    ensures BookedFor(After(s, e), t, pub, ts) ==>
      || BookedFor(s, t, pub, ts)
      || (e == Book(t) && pub in s.clients && s.tasks[t].push.pub == pub && s.tasks[t].push.ts == ts)
  {
  }

  lemma StepKeepsCursor(start: Store.Clients, s: State, e: Step, pub: bytes)
    requires CursorsExact(start, s) && Enabled(s, e) && pub in After(s, e).clients
    ensures CursorExact(start, After(s, e), pub)
  {
    var t := After(s, e);
    var cursor := t.clients[pub].lastTimestamp;
    forall u, ts | BookedFor(t, u, pub, ts) ensures cursor >= ts {
      BookedStays(s, e, u, pub, ts);
      if pub in s.clients {
        assert CursorExact(start, s, pub);
      }
    }
    if pub in s.clients {
      assert CursorExact(start, s, pub);
      if cursor != s.clients[pub].lastTimestamp {
        assert BookedFor(t, e.task, pub, cursor);
      } else if cursor != Base(start, pub) {
        var u :| BookedFor(s, u, pub, cursor);
        BookedStays(s, e, u, pub, cursor);
      }
    }
  }

  lemma StepKeepsCursors(start: Store.Clients, s: State, e: Step)
    requires CursorsExact(start, s) && Enabled(s, e)
    ensures CursorsExact(start, After(s, e))
  {
    forall pub | pub in After(s, e).clients ensures CursorExact(start, After(s, e), pub) {
      StepKeepsCursor(start, s, e, pub);
    }
  }

  lemma StepKeepsInv(start: Store.Clients, s: State, e: Step)
    requires Inv(start, s) && Enabled(s, e)
    ensures Inv(start, After(s, e))
  {
    StepKeepsAcks(s, e);
    StepKeepsTasksWait(s, e);
    StepKeepsApart(s, e);
    StepKeepsOwned(s, e);
    StepKeepsConfirmed(s, e);
    StepKeepsCursors(start, s, e);
    StepKeepsAir(s, e);
  }

  // ---- runs ----

  ghost predicate Runs(start: Store.Clients, steps: seq<Step>)
    decreases |steps|, 0
  {
    steps == []
    || (Runs(start, steps[..|steps| - 1]) && Enabled(Reached(start, steps[..|steps| - 1]), steps[|steps| - 1]))
  }

  /** The state after an interleaving of pushes, ACKs, timeouts and logins, from a table of known clients. */
  ghost function Reached(start: Store.Clients, steps: seq<Step>): State
    requires Runs(start, steps)
    decreases |steps|, 1
  {
    if steps == [] then State(AckTable.IDLE, map[], start, [])
    else After(Reached(start, steps[..|steps| - 1]), steps[|steps| - 1])
  }

  lemma {:induction false} EveryRunKeepsInv(start: Store.Clients, steps: seq<Step>)
    requires Runs(start, steps)
    ensures Inv(start, Reached(start, steps))
    decreases |steps|
  {
    if steps != [] {
      EveryRunKeepsInv(start, steps[..|steps| - 1]);
      StepKeepsInv(start, Reached(start, steps[..|steps| - 1]), steps[|steps| - 1]);
    }
  }

  /**
    Under every interleaving a client's cursor never falls, never stays below the timestamp of a push booked for it
    since it was known, and rises only to the timestamp of a push whose own wait was acknowledged. A client in the
    starting table is known throughout; one that first logs in during the run starts at 0.
   */
  lemma CursorMeansAcknowledged(start: Store.Clients, steps: seq<Step>, pub: bytes)
    requires Runs(start, steps)
    ensures var s := Reached(start, steps);
      && (pub in start ==>
            pub in s.clients
            && forall t :: t in s.tasks && s.tasks[t].progress.Booked? && s.tasks[t].push.pub == pub ==>
              BookedFor(s, t, pub, s.tasks[t].push.ts))
      && (pub in s.clients ==>
            var cursor := s.clients[pub].lastTimestamp;
            && cursor >= Base(start, pub)
            && (forall t, ts :: BookedFor(s, t, pub, ts) ==> cursor >= ts)
            && (cursor > Base(start, pub) ==> exists t ::
                  && BookedFor(s, t, pub, cursor)
                  && s.tasks[t].progress.attempt < |s.tasks[t].push.hashes| && OwnConfirmed(s, s.tasks[t])))
  {
    EveryRunKeepsInv(start, steps);
    var s := Reached(start, steps);
    if pub in s.clients {
      assert CursorExact(start, s, pub);
      if s.clients[pub].lastTimestamp > Base(start, pub) {
        var t :| BookedFor(s, t, pub, s.clients[pub].lastTimestamp);
        assert IsAcked(s.tasks[t].progress) && OwnConfirmed(s, s.tasks[t]);
      }
    }
  }

  /** Under every interleaving what a task has published is a prefix of its own attempts. */
  lemma PublishesOwnAttempts(start: Store.Clients, steps: seq<Step>, t: nat)
    requires Runs(start, steps) && t in Reached(start, steps).tasks
    ensures var task := Reached(start, steps).tasks[t];
      Made(task) <= |task.push.wires| && WiresOf(Reached(start, steps).air, t) == task.push.wires[..Made(task)]
  {
    EveryRunKeepsInv(start, steps);
    assert AirOf(Reached(start, steps), t);
  }

  /** The first n attempts, when only the last of them is acknowledged or there are no more, are a delivery. */
  lemma AttemptsMakeDelivery(c: Suite, j: Room.PushJob, n: nat, acked: nat -> bool)
    requires Room.ValidPush(j) && j.direct >= 0 && j.flood >= 0 && 0 < n <= |Room.PushShots(c, j)|
    requires forall i :: 0 <= i < |Room.PushShots(c, j)| ==> Room.PushShots(c, j)[i].Success?
    requires (forall i :: 0 <= i < n - 1 ==> !acked(i)) && (acked(n - 1) || n == |Room.PushShots(c, j)|)
    ensures var d := Room.PushDelivery(c, j, acked);
      d.wires == PushOf(c, j).wires[..n] && d.result.Success? && d.result.value.acked == acked(n - 1)
  {
    var shots, wires := Room.PushShots(c, j), PushOf(c, j).wires;
    var r := Success(Outcome(shots[n - 1].value, n - 1, acked(n - 1)));
    FirstShots(shots, wires, n, acked);
    Room.DeliveredIsPushDelivery(c, j, acked, wires[..n], r);
  }

  lemma FirstShots(shots: seq<Result<Shot, DeliveryError>>, wires: seq<bytes>, n: nat, acked: nat -> bool)
    requires 0 < n <= |shots| && |wires| == |shots|
    requires forall i :: 0 <= i < |shots| ==> shots[i].Success? && wires[i] == shots[i].value.wire
    requires (forall i :: 0 <= i < n - 1 ==> !acked(i)) && (acked(n - 1) || n == |shots|)
    ensures Delivered(shots, acked, wires[..n], Success(Outcome(shots[n - 1].value, n - 1, acked(n - 1))))
  {
  }

  /** How the waits of a push went, going by where it has got to. */
  function OutcomesOf(p: Progress): nat -> bool {
    i => IsAcked(p) && i == p.attempt
  }

  /**
    A push that is over has published exactly its own delivery, the one its waits call for, whoever published in
    between.
   */
  lemma PublishesItsDelivery(start: Store.Clients, steps: seq<Step>, t: nat, c: Suite, j: Room.PushJob)
    requires Runs(start, steps) && t in Reached(start, steps).tasks
    requires Room.ValidPush(j) && j.direct >= 0 && j.flood >= 0 && Room.PushAttempts(j) != []
    requires forall i :: 0 <= i < |Room.PushShots(c, j)| ==> Room.PushShots(c, j)[i].Success?
    requires var task := Reached(start, steps).tasks[t];
      task.push == PushOf(c, j) && (IsAcked(task.progress) || task.progress.GaveUp?)
    ensures var p := Reached(start, steps).tasks[t].progress;
      var d := Room.PushDelivery(c, j, OutcomesOf(p));
      WiresOf(Reached(start, steps).air, t) == d.wires && d.result.Success? && (d.result.value.acked <==> IsAcked(p))
  {
    PublishesOwnAttempts(start, steps, t);
    var task := Reached(start, steps).tasks[t];
    AttemptsMakeDelivery(c, j, Made(task), OutcomesOf(task.progress));
  }

  /** When no push is waiting the waiter table is empty: pushes leave nothing behind, however they ended. */
  lemma NothingLeftBehind(start: Store.Clients, steps: seq<Step>)
    requires Runs(start, steps)
    requires forall t :: t in Reached(start, steps).tasks ==> !Reached(start, steps).tasks[t].progress.Waiting?
    ensures Reached(start, steps).acks.table == map[]
  {
    EveryRunKeepsInv(start, steps);
    var s := Reached(start, steps);
    forall w ensures w !in s.acks.waits {
      assert w in s.acks.waits ==> exists t :: WaitsFor(s, t, w);
    }
    forall h | h in s.acks.table ensures s.acks.table[h][0] in s.acks.waits {
      assert s.acks.table[h][0] in s.acks.table[h];
    }
  }
}
