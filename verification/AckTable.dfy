/**
  The ACK-waiter table shared by the two servers (protocol.py and echo_server.py): futures listed under
  the hash they wait for. A wait is split at its await points into the steps other tasks can run between.
 */
module AckTable {
  import opened Bytes

  /** A future: pending, resolved by an ACK, or cancelled by its timeout (or by its task). */
  datatype Phase = Pending | Resolved | Cancelled

  datatype Wait = Wait(hash: bytes, phase: Phase)

  datatype Event =
    | Register(id: nat, hash: bytes)
    | Resolve(hash: bytes)
    | Cancel(id: nat)
    | Finish(id: nat, result: bool)

  /** The table, the waits in progress, the step each began at, and what has happened so far. */
  datatype State = State(table: map<bytes, seq<nat>>, waits: map<nat, Wait>, began: map<nat, nat>, log: seq<Event>)

  const IDLE := State(map[], map[], map[], [])

  /**
    When a step can happen. A future that lost the race with its timeout may be reported as a timeout
    even though it was resolved, so only a True result says anything about the phase.
   */
  predicate Enabled(s: State, e: Event) {
    match e
    case Register(id, _) => id !in s.waits
    case Resolve(_) => true
    case Cancel(id) => id in s.waits && s.waits[id].phase == Pending
    case Finish(id, result) =>
      id in s.waits && s.waits[id].phase != Pending && (result ==> s.waits[id].phase == Resolved)
  }

  function Listed(s: State, hash: bytes): seq<nat> {
    if hash in s.table then s.table[hash] else []
  }

  function RemoveId(ids: seq<nat>, id: nat): seq<nat> {
    if ids == [] then [] else if ids[0] == id then ids[1..] else [ids[0]] + RemoveId(ids[1..], id)
  }

  /** Marks the listed futures that are still pending as resolved. */
  function Wake(waits: map<nat, Wait>, ids: seq<nat>): map<nat, Wait> {
    map i | i in waits :: if i in ids && waits[i].phase == Pending then waits[i].(phase := Resolved) else waits[i]
  }

  /** The table once a finished wait has taken its future off its list, and the list off the table if empty. */
  function Cleaned(table: map<bytes, seq<nat>>, hash: bytes, id: nat): map<bytes, seq<nat>> {
    if hash !in table then table
    else
      var left := RemoveId(table[hash], id);
      if left == [] then table - {hash} else table[hash := left]
  }

  function After(s: State, e: Event): State
    requires Enabled(s, e)
  {
    var log := s.log + [e];
    match e
    case Register(id, hash) =>
      State(s.table[hash := Listed(s, hash) + [id]], s.waits[id := Wait(hash, Pending)], s.began[id := |s.log|], log)
    case Resolve(hash) =>
      State(s.table - {hash}, Wake(s.waits, Listed(s, hash)), s.began, log)
    case Cancel(id) =>
      State(s.table, s.waits[id := s.waits[id].(phase := Cancelled)], s.began, log)
    case Finish(id, _) =>
      State(Cleaned(s.table, s.waits[id].hash, id), s.waits - {id}, s.began, log)
  }

  class AckWaiters {
    /** ack hash to futures; a future is an index into waits, which holds its state. */
    var table: map<bytes, seq<nat>>
    var waits: map<nat, Wait>
    ghost var began: map<nat, nat>
    ghost var log: seq<Event>

    constructor ()
      ensures Current() == IDLE
    {
      table, waits, began, log := map[], map[], map[], [];
    }

    ghost function Current(): State
      reads this
    {
      State(table, waits, began, log)
    }

    /** wait_for_ack up to its await. */
    method BeginWait(id: nat, hash: bytes)
      requires Enabled(Current(), Register(id, hash))
      modifies this
      ensures Current() == After(old(Current()), Register(id, hash))
    {
      if hash !in table {
        table := table[hash := []];
      }
      table := table[hash := table[hash] + [id]];
      waits := waits[id := Wait(hash, Pending)];
      began := began[id := |log|];
      log := log + [Register(id, hash)];
    }

    /** An arriving ACK: pops the list and resolves the futures that are not done; reports whether there was one. */
    method ResolveAck(hash: bytes) returns (any: bool)
      modifies this
      ensures Current() == After(old(Current()), Resolve(hash))
      ensures any <==> Listed(old(Current()), hash) != []
    {
      var ids := if hash in table then table[hash] else [];
      table := table - {hash};
      for i := 0 to |ids|
        invariant table == old(table) - {hash} && began == old(began) && log == old(log)
        invariant waits == Wake(old(waits), ids[..i])
      {
        var id := ids[i];
        assert ids[..i + 1] == ids[..i] + [id];
        if id in waits && waits[id].phase == Pending {
          waits := waits[id := waits[id].(phase := Resolved)];
        }
      }
      assert ids[..|ids|] == ids;
      any := ids != [];
      log := log + [Resolve(hash)];
    }

    /** The timeout of a wait fires while its future is pending. */
    method TimeOut(id: nat)
      requires Enabled(Current(), Cancel(id))
      modifies this
      ensures Current() == After(old(Current()), Cancel(id))
    {
      waits := waits[id := waits[id].(phase := Cancelled)];
      log := log + [Cancel(id)];
    }

    /** The rest of wait_for_ack: take the future off its list, drop an empty list, report the outcome. */
    method EndWait(id: nat, timedOut: bool) returns (result: bool)
      requires id in waits && waits[id].phase != Pending
      modifies this
      ensures result <==> !timedOut && old(waits[id].phase) == Resolved
      ensures Current() == After(old(Current()), Finish(id, result))
    {
      result := !timedOut && waits[id].phase == Resolved;
      var hash := waits[id].hash;
      if hash in table {
        var left := RemoveId(table[hash], id);
        table := table[hash := left];
        if left == [] {
          table := table - {hash};
        }
      }
      waits := waits - {id};
      log := log + [Finish(id, result)];
    }
  }

  // ---- what every run keeps ----

  ghost predicate Distinct(ids: seq<nat>) {
    forall i, j :: 0 <= i < j < |ids| ==> ids[i] != ids[j]
  }

  /** Listed futures are unresolved waits under their own hash, each listed once; no list is empty. */
  ghost predicate TableOk(s: State) {
    forall h :: h in s.table ==>
      && s.table[h] != [] && Distinct(s.table[h])
      && forall id :: id in s.table[h] ==> id in s.waits && s.waits[id].hash == h && s.waits[id].phase != Resolved
  }

  /** Every pending future is on the list of its hash. */
  ghost predicate PendingListed(s: State) {
    forall id :: id in s.waits && s.waits[id].phase == Pending ==> id in Listed(s, s.waits[id].hash)
  }

  /** The wait of `id` registered at step j of the log and has not finished since. */
  ghost predicate Began(log: seq<Event>, id: nat, hash: bytes, j: nat) {
    j < |log| && log[j] == Register(id, hash) && forall k, r :: j < k < |log| ==> log[k] != Finish(id, r)
  }

  ghost predicate ResolvedSince(log: seq<Event>, hash: bytes, j: nat) {
    exists k :: j < k < |log| && log[k] == Resolve(hash)
  }

  /** A wait in progress began at step j, and is resolved only if its hash was acknowledged after that step. */
  ghost predicate WaitTraced(log: seq<Event>, id: nat, w: Wait, j: nat) {
    Began(log, id, w.hash, j) && (w.phase == Resolved ==> ResolvedSince(log, w.hash, j))
  }

  ghost predicate Traced(s: State) {
    forall id :: id in s.waits ==> id in s.began && WaitTraced(s.log, id, s.waits[id], s.began[id])
  }

  ghost predicate Inv(s: State) {
    TableOk(s) && PendingListed(s) && Traced(s)
  }

  lemma {:induction false} RemoveIdExact(ids: seq<nat>, id: nat)
    requires Distinct(ids)
    ensures Distinct(RemoveId(ids, id))
    ensures forall x :: x in RemoveId(ids, id) <==> x in ids && x != id
  {
    if ids != [] {
      assert Distinct(ids[1..]);
      RemoveIdExact(ids[1..], id);
      var rest := RemoveId(ids[1..], id);
      if ids[0] != id {
        forall i, j | 0 <= i < j < |rest| + 1 ensures ([ids[0]] + rest)[i] != ([ids[0]] + rest)[j] {
          assert rest[j - 1] in rest;
        }
      }
    }
  }

  lemma StepKeepsTable(s: State, e: Event)
    requires TableOk(s) && PendingListed(s) && Enabled(s, e)
    ensures TableOk(After(s, e)) && PendingListed(After(s, e))
  {
    var t := After(s, e);
    match e
    case Register(id, hash) =>
      var ids := Listed(s, hash);
      assert id !in ids;
      assert t.table[hash] == ids + [id];
    case Resolve(hash) =>
    case Cancel(id) =>
    case Finish(id, _) =>
      var hash := s.waits[id].hash;
      if hash in s.table {
        RemoveIdExact(s.table[hash], id);
        KeepsOthers(s.table[hash], id);
      }
  }

  lemma KeepsOthers(ids: seq<nat>, id: nat)
    requires Distinct(ids)
    ensures RemoveId(ids, id) == [] ==> forall x :: x in ids ==> x == id
  {
    RemoveIdExact(ids, id);
  }

  lemma TraceGrows(log: seq<Event>, e: Event, id: nat, w: Wait, j: nat)
    requires WaitTraced(log, id, w, j) && forall r :: e != Finish(id, r)
    ensures WaitTraced(log + [e], id, w, j)
  {
    if w.phase == Resolved {
      var k: nat :| j < k < |log| && log[k] == Resolve(w.hash);
      assert (log + [e])[k] == Resolve(w.hash);
    }
  }

  lemma TraceResolves(log: seq<Event>, id: nat, w: Wait, j: nat)
    requires WaitTraced(log, id, w, j)
    ensures WaitTraced(log + [Resolve(w.hash)], id, w.(phase := Resolved), j)
  {
    assert (log + [Resolve(w.hash)])[|log|] == Resolve(w.hash);
  }

  lemma StepKeepsTrace(s: State, e: Event)
    requires Inv(s) && Enabled(s, e)
    ensures Traced(After(s, e))
  {
    var t := After(s, e);
    forall id | id in t.waits ensures id in t.began && WaitTraced(t.log, id, t.waits[id], t.began[id]) {
      if !(e.Register? && e.id == id) {
        if e.Resolve? && id in Listed(s, e.hash) && s.waits[id].phase == Pending {
          assert s.waits[id].hash == e.hash;
          TraceResolves(s.log, id, s.waits[id], s.began[id]);
        } else {
          TraceGrows(s.log, e, id, s.waits[id], s.began[id]);
        }
      }
    }
  }

  lemma StepKeepsInv(s: State, e: Event)
    requires Inv(s) && Enabled(s, e)
    ensures Inv(After(s, e))
  {
    StepKeepsTable(s, e);
    StepKeepsTrace(s, e);
  }

  ghost predicate Runs(events: seq<Event>)
    decreases |events|, 0
  {
    events == [] || (Runs(events[..|events| - 1]) && Enabled(Reached(events[..|events| - 1]), events[|events| - 1]))
  }

  /** The state after a run of interleaved steps. */
  ghost function Reached(events: seq<Event>): State
    requires Runs(events)
    decreases |events|, 1
  {
    if events == [] then IDLE else After(Reached(events[..|events| - 1]), events[|events| - 1])
  }

  lemma {:induction false} RunKeepsInv(events: seq<Event>)
    requires Runs(events)
    ensures Inv(Reached(events)) && Reached(events).log == events
    decreases |events|
  {
    if events != [] {
      var before, e := events[..|events| - 1], events[|events| - 1];
      assert events == before + [e];
      RunKeepsInv(before);
      StepKeepsInv(Reached(before), e);
      assert Reached(events) == After(Reached(before), e);
    }
  }

  /**
    Under every interleaving: each pending waiter is listed exactly once, under its own hash; no key has an
    empty list; and the table is empty whenever no wait is in progress.
   */
  lemma EveryRunKeepsInv(events: seq<Event>)
    requires Runs(events)
    ensures Inv(Reached(events)) && Reached(events).log == events
    ensures Reached(events).waits == map[] ==> Reached(events).table == map[]
  {
    RunKeepsInv(events);
    EmptyWhenIdle(Reached(events));
  }

  lemma EmptyWhenIdle(s: State)
    requires TableOk(s)
    ensures s.waits == map[] ==> s.table == map[]
  {
    if h :| h in s.table {
      assert s.table[h][0] in s.table[h];
    }
  }

  /**
    A wait that returns True was acknowledged: in any run, before a step Finish(id, True) there is the
    registration of that wait, and after that registration an ACK for its hash.
   */
  lemma TrueMeansAcknowledged(events: seq<Event>, n: nat)
    requires Runs(events) && n < |events| && events[n].Finish? && events[n].result
    ensures exists j: nat, hash ::
      j < n && Began(events[..n], events[n].id, hash, j) && ResolvedSince(events[..n], hash, j)
  {
    RunPrefix(events, n + 1);
    var upTo := events[..n + 1];
    assert upTo[..n] == events[..n];
    EveryRunKeepsInv(events[..n]);
    var s := Reached(events[..n]);
    var id := events[n].id;
    assert WaitTraced(s.log, id, s.waits[id], s.began[id]);
  }

  lemma {:induction false} RunPrefix(events: seq<Event>, n: nat)
    requires Runs(events) && n <= |events|
    ensures Runs(events[..n])
    decreases |events|
  {
    if n < |events| {
      RunPrefix(events[..|events| - 1], n);
      assert events[..|events| - 1][..n] == events[..n];
    } else {
      assert events[..n] == events;
    }
  }

  /** Cleaning up one wait leaves every other future where it was, whatever hash it waits for. */
  lemma CleanupIsLocal(s: State, id: nat, result: bool, other: nat, hash: bytes)
    requires Inv(s) && Enabled(s, Finish(id, result)) && other != id
    ensures var t := After(s, Finish(id, result));
      && (other in Listed(t, hash) <==> other in Listed(s, hash))
      && (other in t.waits <==> other in s.waits)
      && (other in s.waits ==> t.waits[other] == s.waits[other])
  {
    var own := s.waits[id].hash;
    if own in s.table {
      RemoveIdExact(s.table[own], id);
      KeepsOthers(s.table[own], id);
    }
  }

  /** An ACK leaves nobody waiting for its hash. */
  lemma ResolveWakesAll(s: State, hash: bytes)
    requires Inv(s)
    ensures var t := After(s, Resolve(hash));
      hash !in t.table && forall id :: id in t.waits && t.waits[id].hash == hash ==> t.waits[id].phase != Pending
    ensures forall id :: id in s.waits && s.waits[id].hash == hash && s.waits[id].phase == Pending ==>
      After(s, Resolve(hash)).waits[id].phase == Resolved
  {
    var t := After(s, Resolve(hash));
    forall id | id in t.waits && t.waits[id].hash == hash ensures t.waits[id].phase != Pending {
      assert s.waits[id].hash == hash;
    }
  }
}
