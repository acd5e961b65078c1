/**
  The time-limited duplicate cache of the two servers (protocol.py, echo_server.py) and its meaning over full history.
 */
module Recent {
  import opened Bytes

  /** Source address and ACK hash of a message. */
  type Key = (byte, bytes)
  type Cache = map<Key, real>

  function Purged(cache: Cache, cutoff: real): Cache {
    map k | k in cache && cache[k] >= cutoff :: cache[k]
  }

  /** remember_message: whether the key was new, and the cache afterwards. */
  function IsNew(cache: Cache, key: Key, now: real, ttl: real): bool {
    key !in Purged(cache, now - ttl)
  }

  function Remembered(cache: Cache, key: Key, now: real, ttl: real): Cache {
    var kept := Purged(cache, now - ttl);
    if key in kept then kept else kept[key := now]
  }

  datatype Call = Call(key: Key, at: real, accepted: bool)

  /** Some accepted call with this key happened no earlier than `cutoff`. */
  ghost predicate AcceptedSince(history: seq<Call>, key: Key, cutoff: real) {
    exists i :: 0 <= i < |history| && history[i].accepted && history[i].key == key && history[i].at >= cutoff
  }

  /** The cache holds what full history would say about any time from `last` on. */
  ghost predicate Represents(cache: Cache, history: seq<Call>, last: real, ttl: real) {
    && (forall i :: 0 <= i < |history| ==> history[i].at <= last)
    && (forall k :: k in cache ==> AcceptedAt(history, k, cache[k]))
    && (forall i :: 0 <= i < |history| && history[i].accepted && history[i].at >= last - ttl ==>
          history[i].key in cache && cache[history[i].key] >= history[i].at)
  }

  ghost predicate AcceptedAt(history: seq<Call>, key: Key, at: real) {
    exists i :: 0 <= i < |history| && history[i].accepted && history[i].key == key && history[i].at == at
  }

  /** Every call in the history was accepted iff its key had not been accepted within the ttl before it. */
  ghost predicate Faithful(history: seq<Call>, ttl: real) {
    forall i :: 0 <= i < |history| ==>
      (history[i].accepted <==> !AcceptedSince(history[..i], history[i].key, history[i].at - ttl))
  }

  ghost predicate InOrder(history: seq<Call>) {
    forall i, j :: 0 <= i < j < |history| ==> history[i].at <= history[j].at
  }

  function Recorded(cache: Cache, history: seq<Call>, key: Key, now: real, ttl: real): seq<Call> {
    history + [Call(key, now, IsNew(cache, key, now, ttl))]
  }

  /** One call: the cache answers as full history would, and goes on representing it. */
  lemma RememberRefines(cache: Cache, history: seq<Call>, last: real, ttl: real, key: Key, now: real)
    requires Represents(cache, history, last, ttl) && last <= now
    ensures IsNew(cache, key, now, ttl) <==> !AcceptedSince(history, key, now - ttl)
    ensures Represents(Remembered(cache, key, now, ttl), Recorded(cache, history, key, now, ttl), now, ttl)
  {
    if key in cache && cache[key] >= now - ttl {
      assert AcceptedAt(history, key, cache[key]);
      assert AcceptedSince(history, key, now - ttl);
    }
    var more, cache' := Recorded(cache, history, key, now, ttl), Remembered(cache, key, now, ttl);
    forall k | k in cache' ensures AcceptedAt(more, k, cache'[k]) {
      if k in cache && cache[k] == cache'[k] {
        var i :| 0 <= i < |history| && history[i].accepted && history[i].key == k && history[i].at == cache[k];
        assert more[i] == history[i];
      } else {
        assert more[|history|] == Call(key, now, true);
      }
    }
    forall i | 0 <= i < |more| && more[i].accepted && more[i].at >= now - ttl
      ensures more[i].key in cache' && cache'[more[i].key] >= more[i].at
    {
      if i < |history| {
        assert history[i] == more[i];
      }
    }
  }

  lemma RecordFaithful(cache: Cache, history: seq<Call>, last: real, ttl: real, key: Key, now: real)
    requires Represents(cache, history, last, ttl) && last <= now && Faithful(history, ttl) && InOrder(history)
    ensures Faithful(Recorded(cache, history, key, now, ttl), ttl) && InOrder(Recorded(cache, history, key, now, ttl))
  {
    RememberRefines(cache, history, last, ttl, key, now);
    var more := Recorded(cache, history, key, now, ttl);
    forall i | 0 <= i < |more|
      ensures more[i].accepted <==> !AcceptedSince(more[..i], more[i].key, more[i].at - ttl)
    {
      if i < |history| {
        assert more[..i] == history[..i];
      } else {
        assert more[..i] == history;
      }
    }
  }

  datatype Request = Request(key: Key, at: real)

  ghost predicate Monotone(requests: seq<Request>) {
    forall i, j :: 0 <= i < j < |requests| ==> requests[i].at <= requests[j].at
  }

  function CacheAfter(requests: seq<Request>, ttl: real): Cache {
    if requests == [] then map[]
    else
      var r := requests[|requests| - 1];
      Remembered(CacheAfter(requests[..|requests| - 1], ttl), r.key, r.at, ttl)
  }

  function HistoryAfter(requests: seq<Request>, ttl: real): seq<Call> {
    if requests == [] then []
    else
      var before := requests[..|requests| - 1];
      var r := requests[|requests| - 1];
      Recorded(CacheAfter(before, ttl), HistoryAfter(before, ttl), r.key, r.at, ttl)
  }

  lemma {:induction false} RunFaithful(requests: seq<Request>, ttl: real)
    requires Monotone(requests)
    ensures var h := HistoryAfter(requests, ttl);
      && |h| == |requests| && Faithful(h, ttl) && InOrder(h)
      && (requests != [] ==> Represents(CacheAfter(requests, ttl), h, requests[|requests| - 1].at, ttl))
  {
    if requests != [] {
      var n := |requests| - 1;
      var before, r := requests[..n], requests[n];
      RunFaithful(before, ttl);
      var h, cache := HistoryAfter(before, ttl), CacheAfter(before, ttl);
      var last := if n > 0 then before[n - 1].at else r.at;
      assert n == 0 ==> before == [];
      assert Represents(cache, h, last, ttl);
      RememberRefines(cache, h, last, ttl, r.key, r.at);
      RecordFaithful(cache, h, last, ttl, r.key, r.at);
    }
  }

  lemma {:induction false} RunRecordsRequests(requests: seq<Request>, ttl: real)
    ensures var h := HistoryAfter(requests, ttl);
      |h| == |requests| && forall i :: 0 <= i < |h| ==> h[i].key == requests[i].key && h[i].at == requests[i].at
  {
    if requests != [] {
      RunRecordsRequests(requests[..|requests| - 1], ttl);
    }
  }

  /**
    Over any run with a non-decreasing clock and any ttl, remember_message returns True exactly when no accepted
    call with that key happened within the ttl; so two accepted calls with one key are more than the ttl apart.
   */
  lemma CacheRefinesHistory(requests: seq<Request>, ttl: real)
    requires Monotone(requests)
    ensures var h := HistoryAfter(requests, ttl);
      && |h| == |requests|
      && forall i :: 0 <= i < |h| ==>
        && h[i].key == requests[i].key && h[i].at == requests[i].at
        && (h[i].accepted <==> !AcceptedSince(h[..i], requests[i].key, requests[i].at - ttl))
    ensures forall i, j :: 0 <= i < j < |requests| ==> AcceptedApart(HistoryAfter(requests, ttl), i, j, ttl)
  {
    RunFaithful(requests, ttl);
    RunRecordsRequests(requests, ttl);
    AllApart(HistoryAfter(requests, ttl), ttl);
  }

  ghost predicate AcceptedApart(history: seq<Call>, i: nat, j: nat, ttl: real) {
    i < |history| && j < |history| && history[i].accepted && history[j].accepted && history[i].key == history[j].key ==>
      history[j].at - history[i].at > ttl
  }

  lemma AllApart(history: seq<Call>, ttl: real)
    requires Faithful(history, ttl)
    ensures forall i, j :: 0 <= i < j < |history| ==> AcceptedApart(history, i, j, ttl)
  {
    forall i, j | 0 <= i < j < |history| ensures AcceptedApart(history, i, j, ttl) {
      assert history[..j][i] == history[i];
    }
  }
}
