/** The post store and per-client sync cursors (db.py), with its two SQL tables as a sequence and a map. */
module Store {
  import opened Bytes
  import opened Wrappers

  datatype Post = Post(id: int, author: bytes, ts: int, body: bytes, txtType: int)
  datatype Client = Client(name: bytes, isAdmin: bool, lastTimestamp: int, lastLogin: int)

  // ---- selecting posts ----

  /** ORDER BY ts ASC, id ASC. */
  predicate Before(a: Post, b: Post) {
    a.ts < b.ts || (a.ts == b.ts && a.id < b.id)
  }

  predicate Selected(p: Post, since: int, exclude: Option<bytes>) {
    p.ts > since && (exclude.None? || p.author != exclude.value)
  }

  function Insert(p: Post, sorted: seq<Post>): seq<Post> {
    if sorted == [] || Before(p, sorted[0]) then [p] + sorted else [sorted[0]] + Insert(p, sorted[1..])
  }

  function PostsSince(posts: seq<Post>, since: int, exclude: Option<bytes>): seq<Post> {
    if posts == [] then []
    else
      var rest := PostsSince(posts[1..], since, exclude);
      if Selected(posts[0], since, exclude) then Insert(posts[0], rest) else rest
  }

  ghost predicate Ascending(posts: seq<Post>) {
    forall i, j :: 0 <= i < j < |posts| ==> Before(posts[i], posts[j])
  }

  /** Row ids are unique, as the primary key demands. */
  ghost predicate UniqueIds(posts: seq<Post>) {
    forall i, j :: 0 <= i < j < |posts| ==> posts[i].id != posts[j].id
  }

  lemma {:induction false} InsertAscending(p: Post, sorted: seq<Post>)
    requires Ascending(sorted) && forall q :: q in sorted ==> q.id != p.id
    ensures Ascending(Insert(p, sorted))
    ensures forall q :: q in Insert(p, sorted) <==> q == p || q in sorted
  {
    if sorted == [] {
    } else if Before(p, sorted[0]) {
      forall q | q in sorted ensures Before(p, q) {
        var i :| 0 <= i < |sorted| && sorted[i] == q;
      }
      AscendingCons(p, sorted);
    } else {
      assert sorted == [sorted[0]] + sorted[1..];
      InsertAscending(p, sorted[1..]);
      var rest := Insert(p, sorted[1..]);
      forall q | q in rest ensures Before(sorted[0], q) {
        if q != p {
          var i :| 1 <= i < |sorted| && sorted[i] == q;
        }
      }
      AscendingCons(sorted[0], rest);
    }
  }

  lemma AscendingCons(first: Post, rest: seq<Post>)
    requires Ascending(rest) && forall q :: q in rest ==> Before(first, q)
    ensures Ascending([first] + rest)
  {
    var all := [first] + rest;
    forall i, j | 0 <= i < j < |all| ensures Before(all[i], all[j]) {
      assert all[j] == rest[j - 1] && rest[j - 1] in rest;
      assert i > 0 ==> all[i] == rest[i - 1];
    }
  }

  /** posts_since lists exactly the selected rows, strictly ordered by (ts, id). */
  lemma {:induction false} PostsSinceExact(posts: seq<Post>, since: int, exclude: Option<bytes>)
    requires UniqueIds(posts)
    ensures Ascending(PostsSince(posts, since, exclude))
    ensures forall p :: p in PostsSince(posts, since, exclude) <==> p in posts && Selected(p, since, exclude)
  {
    if posts != [] {
      var tail := posts[1..];
      assert UniqueIds(tail);
      PostsSinceExact(tail, since, exclude);
      var rest := PostsSince(tail, since, exclude);
      forall q | q in rest ensures q.id != posts[0].id {
        var i :| 0 <= i < |tail| && tail[i] == q;
        assert posts[i + 1] == q;
      }
      if Selected(posts[0], since, exclude) {
        InsertAscending(posts[0], rest);
      }
      assert posts == [posts[0]] + tail;
    }
  }

  /** A strictly ordered list is determined by its elements. */
  lemma {:induction false} AscendingUnique(a: seq<Post>, b: seq<Post>)
    requires Ascending(a) && Ascending(b) && forall p :: p in a <==> p in b
    ensures a == b
    decreases |a|
  {
    if b != [] {
      assert b[0] in b;
    }
    if a != [] {
      assert a[0] in b && b != [];
      assert a[0] == b[0];
      var at, bt := a[1..], b[1..];
      assert a == [a[0]] + at && b == [b[0]] + bt;
      assert a[0] !in at && b[0] !in bt by {
        assert forall i :: 0 <= i < |at| ==> Before(a[0], a[i + 1]) && at[i] == a[i + 1];
        assert forall i :: 0 <= i < |bt| ==> Before(b[0], b[i + 1]) && bt[i] == b[i + 1];
      }
      forall p ensures p in at <==> p in bt {
        assert p in a <==> p == a[0] || p in at;
        assert p in b <==> p == b[0] || p in bt;
      }
      AscendingUnique(at, bt);
    }
  }

  // ---- paging through them ----

  /** Python's s[:n], for negative n too. */
  function Prefix<T>(s: seq<T>, n: int): seq<T> {
    if n >= |s| then s else if n >= 0 then s[..n] else if |s| + n > 0 then s[..|s| + n] else []
  }

  /**
    The first `max` of other authors' newer posts: in order, none but such, at most `max` of them, and none left out
    that comes before one that is in. A negative `max` leaves out that many at the end.
   */
  lemma BatchExact(posts: seq<Post>, since: int, pub: bytes, max: int)
    requires UniqueIds(posts)
    ensures var batch := Prefix(PostsSince(posts, since, Some(pub)), max);
      && Ascending(batch)
      && (forall p :: p in batch ==> p in posts && p.ts > since && p.author != pub)
      && (forall p, q :: p in posts && p.ts > since && p.author != pub && p !in batch && q in batch ==> Before(q, p))
      && (max >= 0 ==> |batch| <= max)
      && (forall p :: p in posts && p.ts > since && p.author != pub && p !in batch ==> max < 0 || |batch| == max)
  {
    var all := PostsSince(posts, since, Some(pub));
    var batch := Prefix(all, max);
    PostsSinceExact(posts, since, Some(pub));
    forall p | p in batch ensures p in posts && Selected(p, since, Some(pub)) {
      assert p in all;
    }
    forall p, q | p in posts && p.ts > since && p.author != pub && p !in batch && q in batch ensures Before(q, p) {
      assert Selected(p, since, Some(pub)) && p in all;
      var i :| 0 <= i < |all| && all[i] == p;
      var j :| 0 <= j < |batch| && batch[j] == q;
      assert batch[j] == all[j] && forall k :: 0 <= k < |batch| ==> all[k] in batch;
    }
    forall p | p in posts && p.ts > since && p.author != pub && p !in batch ensures max < 0 || |batch| == max {
      assert Selected(p, since, Some(pub)) && p in all;
    }
  }

  /** The suffix of an ordered list with timestamps above `since`. */
  function NewerThan(list: seq<Post>, since: int): (r: seq<Post>)
    ensures |r| <= |list|
    ensures list != [] && list[0].ts <= since ==> |r| < |list|
  {
    if list == [] || list[0].ts > since then list else NewerThan(list[1..], since)
  }

  lemma {:induction false} NewerThanMembers(list: seq<Post>, since: int)
    requires Ascending(list)
    ensures Ascending(NewerThan(list, since))
    ensures forall p :: p in NewerThan(list, since) <==> p in list && p.ts > since
  {
    if list != [] {
      assert Ascending(list[1..]);
      NewerThanMembers(list[1..], since);
      assert list == [list[0]] + list[1..];
      if list[0].ts > since {
        forall p | p in list ensures p.ts > since {
          var i :| 0 <= i < |list| && list[i] == p;
        }
      }
    }
  }

  /** Asking again from a later timestamp gives the suffix of the earlier answer. */
  lemma PostsSinceLater(posts: seq<Post>, since: int, later: int, exclude: Option<bytes>)
    requires UniqueIds(posts) && since <= later
    ensures PostsSince(posts, later, exclude) == NewerThan(PostsSince(posts, since, exclude), later)
  {
    PostsSinceExact(posts, since, exclude);
    PostsSinceExact(posts, later, exclude);
    NewerThanMembers(PostsSince(posts, since, exclude), later);
    AscendingUnique(PostsSince(posts, later, exclude), NewerThan(PostsSince(posts, since, exclude), later));
  }

  /** Repeated syncs of a fixed store, each from the last timestamp of the batch before. */
  function Pages(posts: seq<Post>, since: int, exclude: Option<bytes>, limit: nat): seq<Post>
    requires limit > 0 && UniqueIds(posts)
    decreases |PostsSince(posts, since, exclude)|
  {
    var all := PostsSince(posts, since, exclude);
    if all == [] then []
    else
      var batch := Prefix(all, limit);
      var last := batch[|batch| - 1].ts;
      PagingProgress(posts, since, exclude, limit);
      batch + Pages(posts, last, exclude, limit)
  }

  lemma PagingProgress(posts: seq<Post>, since: int, exclude: Option<bytes>, limit: nat)
    requires limit > 0 && UniqueIds(posts) && PostsSince(posts, since, exclude) != []
    ensures var all := PostsSince(posts, since, exclude);
      var batch := Prefix(all, limit);
      var last := batch[|batch| - 1].ts;
      since < last && PostsSince(posts, last, exclude) == NewerThan(all[|batch|..], last)
      && |PostsSince(posts, last, exclude)| < |all|
  {
    var all := PostsSince(posts, since, exclude);
    PostsSinceExact(posts, since, exclude);
    var batch := Prefix(all, limit);
    var last := batch[|batch| - 1].ts;
    assert batch[|batch| - 1] in all;
    PostsSinceLater(posts, since, last, exclude);
    SkipBatch(all, |batch|, last);
  }

  lemma {:induction false} SkipBatch(list: seq<Post>, n: nat, since: int)
    requires n <= |list| && forall i :: 0 <= i < n ==> list[i].ts <= since
    ensures NewerThan(list, since) == NewerThan(list[n..], since)
    decreases n
  {
    if n > 0 {
      SkipBatch(list[1..], n - 1, since);
      assert list[1..][n - 1..] == list[n..];
    }
  }

  /** No page ends between two posts with the same timestamp. */
  predicate NoTieAtPageEnd(list: seq<Post>, limit: nat)
    requires limit > 0
  {
    |list| <= limit || (list[limit - 1].ts < list[limit].ts && NoTieAtPageEnd(list[limit..], limit))
  }

  /**
    Paging lists every post once each exactly when no page ends on a tie: posts that share the timestamp a page
    ends with, but fall beyond it, are never sent.
   */
  lemma {:induction false} PagingCompleteExactly(posts: seq<Post>, since: int, exclude: Option<bytes>, limit: nat)
    requires limit > 0 && UniqueIds(posts)
    ensures |Pages(posts, since, exclude, limit)| <= |PostsSince(posts, since, exclude)|
    ensures Pages(posts, since, exclude, limit) == PostsSince(posts, since, exclude)
      <==> NoTieAtPageEnd(PostsSince(posts, since, exclude), limit)
    decreases |PostsSince(posts, since, exclude)|
  {
    var all := PostsSince(posts, since, exclude);
    if all != [] {
      var batch := Prefix(all, limit);
      var last, beyond := batch[|batch| - 1].ts, all[|batch|..];
      PagingProgress(posts, since, exclude, limit);
      PostsSinceExact(posts, since, exclude);
      PagingCompleteExactly(posts, last, exclude, limit);
      PageStep(all, limit, Pages(posts, last, exclude, limit));
    }
  }

  /** One page of a list, given how the rest of it pages. */
  lemma PageStep(all: seq<Post>, limit: nat, pages: seq<Post>)
    requires limit > 0 && all != [] && Ascending(all)
    requires var batch := Prefix(all, limit);
      var rest := NewerThan(all[|batch|..], batch[|batch| - 1].ts);
      |pages| <= |rest| && (pages == rest <==> NoTieAtPageEnd(rest, limit))
    ensures |Prefix(all, limit) + pages| <= |all|
    ensures Prefix(all, limit) + pages == all <==> NoTieAtPageEnd(all, limit)
  {
    if |all| > limit {
      var batch, beyond := all[..limit], all[limit..];
      assert all == batch + beyond;
      assert batch[limit - 1] == all[limit - 1] && beyond[0] == all[limit];
      assert Before(all[limit - 1], all[limit]);
      assert (batch + pages)[limit..] == pages;
    }
  }

  /** With distinct timestamps paging always lists everything. */
  lemma {:induction false} DistinctTimestampsPage(list: seq<Post>, limit: nat)
    requires limit > 0 && Ascending(list) && forall i, j :: 0 <= i < j < |list| ==> list[i].ts != list[j].ts
    ensures NoTieAtPageEnd(list, limit)
    decreases |list|
  {
    if |list| > limit {
      assert Before(list[limit - 1], list[limit]);
      assert Ascending(list[limit..]);
      DistinctTimestampsPage(list[limit..], limit);
    }
  }

  /** Two posts with one timestamp, fetched one at a time: the second is never sent. */
  lemma TiedPostIsLost(author: bytes)
    ensures var posts := [Post(1, author, 7, [], 0), Post(2, author, 7, [], 0)];
      UniqueIds(posts) && Pages(posts, 0, None, 1) == [posts[0]] && PostsSince(posts, 0, None) == posts
  {
    var a, b := Post(1, author, 7, [], 0), Post(2, author, 7, [], 0);
    var posts := [a, b];
    assert posts[1..] == [b] && posts[1..][1..] == [];
    assert PostsSince(posts[1..][1..], 0, None) == [];
    assert [b] + [] == [b];
    assert PostsSince(posts[1..], 0, None) == [b];
    assert PostsSince(posts, 0, None) == Insert(a, [b]);
    assert Before(a, b) && Insert(a, [b]) == [a] + [b] == posts;
    assert !Selected(a, 7, None) && !Selected(b, 7, None);
    assert PostsSince(posts[1..][1..], 7, None) == [];
    assert PostsSince(posts[1..], 7, None) == [];
    assert PostsSince(posts, 7, None) == [];
    assert Pages(posts, 7, None, 1) == [];
    assert Pages(posts, 0, None, 1) == [a] + [];
  }

  // ---- clients and their cursors ----

  type Clients = map<bytes, Client>

  function Upserted(clients: Clients, pub: bytes, name: bytes, isAdmin: bool, now: int): Clients {
    clients[pub := Client(name, isAdmin, if pub in clients then clients[pub].lastTimestamp else 0, now)]
  }

  function CursorSet(clients: Clients, pub: bytes, ts: int): Clients {
    if pub in clients && clients[pub].lastTimestamp < ts then
      clients[pub := clients[pub].(lastTimestamp := ts)]
    else clients
  }

  /** A statement against the clients table: a login, or a push acknowledged by its client. */
  datatype Op = Login(pub: bytes, name: bytes, isAdmin: bool, now: int) | Acked(pub: bytes, ts: int)

  function Applied(clients: Clients, op: Op): Clients {
    match op
    case Login(pub, name, isAdmin, now) => Upserted(clients, pub, name, isAdmin, now)
    case Acked(pub, ts) => CursorSet(clients, pub, ts)
  }

  function Replayed(clients: Clients, ops: seq<Op>): Clients
    decreases |ops|
  {
    if ops == [] then clients else Replayed(Applied(clients, ops[0]), ops[1..])
  }

  /** m is the largest of `start` and the timestamps acknowledged by `pub`. */
  ghost predicate IsLatest(m: int, start: int, ops: seq<Op>, pub: bytes) {
    && m >= start
    && (forall ts :: Acked(pub, ts) in ops ==> m >= ts)
    && (m == start || Acked(pub, m) in ops)
  }

  /**
    However logins and acknowledged pushes of all clients interleave, a client's cursor is the maximum of
    its prior value and the acknowledged timestamps; logging in again never lowers it.
   */
  lemma {:induction false} CursorIsMaximum(clients: Clients, ops: seq<Op>, pub: bytes)
    requires pub in clients
    ensures pub in Replayed(clients, ops)
    ensures IsLatest(Replayed(clients, ops)[pub].lastTimestamp, clients[pub].lastTimestamp, ops, pub)
    decreases |ops|
  {
    if ops != [] {
      var next := Applied(clients, ops[0]);
      CursorIsMaximum(next, ops[1..], pub);
      assert ops == [ops[0]] + ops[1..];
    }
  }

  class RoomStore {
    var posts: seq<Post>
    var clients: Clients
    var lastId: int

    constructor ()
      ensures Valid() && posts == [] && clients == map[]
    {
      posts, clients, lastId := [], map[], 0;
    }

    /** Ids only grow, so they are unique. */
    ghost predicate Valid()
      reads this`posts, this`lastId
    {
      && UniqueIds(posts)
      && forall p :: p in posts ==> p.id <= lastId
    }

    method AddPost(author: bytes, ts: int, body: bytes, txtType: int) returns (post: Post)
      requires Valid()
      modifies this`posts, this`lastId
      ensures Valid()
      ensures post == Post(old(lastId) + 1, author, ts, body, txtType) && lastId == old(lastId) + 1
      ensures posts == old(posts) + [post]
    {
      lastId := lastId + 1;
      post := Post(lastId, author, ts, body, txtType);
      forall i | 0 <= i < |posts| ensures posts[i].id != post.id {
        assert posts[i] in posts;
      }
      posts := posts + [post];
    }

    method UpsertClient(pub: bytes, name: bytes, isAdmin: bool, now: int)
      modifies this`clients
      ensures clients == Applied(old(clients), Login(pub, name, isAdmin, now))
    {
      if pub in clients {
        clients := clients[pub := clients[pub].(name := name, isAdmin := isAdmin, lastLogin := now)];
      } else {
        clients := clients[pub := Client(name, isAdmin, 0, now)];
      }
    }

    method SetClientCursor(pub: bytes, ts: int)
      modifies this`clients
      ensures clients == Applied(old(clients), Acked(pub, ts))
    {
      if pub in clients && clients[pub].lastTimestamp < ts {
        clients := clients[pub := clients[pub].(lastTimestamp := ts)];
      }
    }
  }
}
