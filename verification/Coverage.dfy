/**
  Who is sent which post (protocol.py): logins and stored posts start background tasks, which begin in any order and at
  any later time, while frames go on arriving. A fan-out goes to whoever has a session when it begins; a sync selects
  among the posts stored when it begins.
 */
module Coverage {
  import opened Bytes
  import opened Wrappers
  import opened Inbound
  import opened RoomStates
  import AckTable
  import Store

  // ---- what the tasks depend on ----

  /** The clients with a session, the posts, the last row id, and the tasks started so far. */
  datatype Room = Room(clients: set<bytes>, posts: seq<Store.Post>, lastId: int, tasks: seq<Task>)

  function RoomOf(s: State): Room {
    Room(s.sessions.Keys, s.posts, s.lastId, s.spawned)
  }

  function Joined(r: Room, pub: bytes, since: int): Room {
    r.(clients := r.clients + {pub}, tasks := r.tasks + [SyncTask(pub, since)])
  }

  function Added(r: Room, post: Store.Post): Room {
    r.(posts := r.posts + [post], lastId := r.lastId + 1, tasks := r.tasks + [FanOutTask(post)])
  }

  /** A frame lets one client in, or adds one post, or changes nothing here. */
  function Changed(r: Room, o: Outcome): Room {
    if o.LoggedIn? then Joined(r, o.req.clientPubKey, o.req.syncSince)
    else if IsStored(o) then Added(r, Row(r.lastId, o.h))
    else r
  }

  lemma FrameChanges(host: Host, config: Config, s: State, f: Frame, o: Outcome)
    requires host.pubKey != [] && IsU32(f.serverTs) && Possible(host, config, s, f, o)
    ensures RoomOf(RoomStates.After(host, config, s, f, o)) == Changed(RoomOf(s), o)
  {
    OneStep(host, config, s, f, o);
    SessionsStay(host, config, s, f, o);
  }

  // ---- tasks that begin, in any order ----

  /** What a task saw when it began; `at` is how many tasks had been started by then. */
  datatype Begun =
    | FanningOut(targets: set<bytes>, at: nat)
    | Syncing(posts: seq<Store.Post>, at: nat)

  datatype World = World(s: State, begun: map<nat, Begun>)

  /** A frame is handled; a task begins; or tasks under way publish, move cursors and wait, and waits end. */
  datatype Step =
    | Receive(f: Frame, o: Outcome)
    | Begin(task: nat)
    | Background(published: seq<bytes>, clients: Store.Clients, acks: AckTable.State)

  ghost predicate Enabled(host: Host, config: Config, w: World, e: Step)
    requires host.pubKey != []
  {
    match e
    case Receive(f, o) => IsU32(f.serverTs) && Possible(host, config, w.s, f, o)
    case Begin(k) => k < |w.s.spawned| && k !in w.begun
    case Background(_, _, _) => true
  }

  function Beginning(r: Room, task: Task): Begun {
    match task
    case SyncTask(pub, since) => Syncing(Store.PostsSince(r.posts, since, Some(pub)), |r.tasks|)
    case FanOutTask(post) => FanningOut(r.clients - {post.author}, |r.tasks|)
  }

  ghost function After(host: Host, config: Config, w: World, e: Step): World
    requires host.pubKey != [] && Enabled(host, config, w, e)
  {
    match e
    case Receive(f, o) => w.(s := RoomStates.After(host, config, w.s, f, o))
    case Begin(k) => w.(begun := w.begun[k := Beginning(RoomOf(w.s), w.s.spawned[k])])
    case Background(published, clients, acks) => w.(s := w.s.(published := published, clients := clients, acks := acks))
  }

  ghost predicate Runs(host: Host, config: Config, start: State, steps: seq<Step>)
    requires host.pubKey != []
    decreases |steps|, 0
  {
    steps == []
    || (var n := |steps| - 1;
        && Runs(host, config, start, steps[..n])
        && Enabled(host, config, Reached(host, config, start, steps[..n]), steps[n]))
  }

  ghost function Reached(host: Host, config: Config, start: State, steps: seq<Step>): World
    requires host.pubKey != [] && Runs(host, config, start, steps)
    decreases |steps|, 1
  {
    if steps == [] then World(start, map[])
    else
      var n := |steps| - 1;
      After(host, config, Reached(host, config, start, steps[..n]), steps[n])
  }

  // ---- what every run keeps ----

  predicate IsSyncOf(task: Task, pub: bytes) {
    task.SyncTask? && task.pub == pub
  }

  /** A sync of this client is among the first n tasks. */
  ghost predicate SyncedBefore(tasks: seq<Task>, pub: bytes, n: int) {
    exists m :: 0 <= m < n <= |tasks| && IsSyncOf(tasks[m], pub)
  }

  /** Row ids go up, and are not reused. */
  ghost predicate IdsOk(r: Room) {
    Store.UniqueIds(r.posts) && forall p :: p in r.posts ==> p.id <= r.lastId
  }

  /** Whoever has a session has been given a sync, and nobody else; every fan-out is of a stored post. */
  ghost predicate TasksMatch(r: Room) {
    && (forall pub :: pub in r.clients <==> SyncedBefore(r.tasks, pub, |r.tasks|))
    && (forall k :: 0 <= k < |r.tasks| && r.tasks[k].FanOutTask? ==> r.tasks[k].post in r.posts)
  }

  /** Every post from number `first` on has been given a fan-out. */
  ghost predicate PostsFanned(r: Room, first: nat) {
    forall i :: first <= i < |r.posts| ==> FanOutTask(r.posts[i]) in r.tasks
  }

  ghost predicate BegunOk(r: Room, k: nat, b: Begun) {
    && k < |r.tasks| && k < b.at <= |r.tasks|
    && match r.tasks[k]
       case FanOutTask(post) => b.FanningOut? && TargetsOk(r.tasks, post, b.targets, b.at)
       case SyncTask(pub, since) =>
         && b.Syncing? && SelectionOk(r.tasks, pub, since, b.posts, b.at)
         && forall p :: p in b.posts ==> p.id <= r.lastId
  }

  /** The targets are the clients other than the author whose first sync had been started by then. */
  ghost predicate TargetsOk(tasks: seq<Task>, post: Store.Post, targets: set<bytes>, at: int) {
    forall pub :: pub in targets <==> pub != post.author && SyncedBefore(tasks, pub, at)
  }

  /** Of the posts with fan-outs, the selection has those newer than `since`, by others, and stored by then. */
  ghost predicate SelectionOk(tasks: seq<Task>, pub: bytes, since: int, posts: seq<Store.Post>, at: int) {
    forall m :: 0 <= m < |tasks| && tasks[m].FanOutTask? ==>
      (tasks[m].post in posts <==> m < at && Store.Selected(tasks[m].post, since, Some(pub)))
  }

  ghost predicate Inv(r: Room, begun: map<nat, Begun>, first: nat) {
    IdsOk(r) && TasksMatch(r) && PostsFanned(r, first) && forall k :: k in begun ==> BegunOk(r, k, begun[k])
  }

  /** A further task changes nothing about the first n. */
  lemma SyncedBeforeStays(tasks: seq<Task>, task: Task, pub: bytes, n: int)
    requires n <= |tasks|
    ensures SyncedBefore(tasks + [task], pub, n) <==> SyncedBefore(tasks, pub, n)
  {
    if m :| 0 <= m < n && IsSyncOf(tasks[m], pub) {
      assert IsSyncOf((tasks + [task])[m], pub);
    }
  }

  lemma SyncedBeforeGrows(tasks: seq<Task>, task: Task, pub: bytes)
    ensures SyncedBefore(tasks + [task], pub, |tasks| + 1) <==> SyncedBefore(tasks, pub, |tasks|) || IsSyncOf(task, pub)
  {
    SyncedBeforeStays(tasks, task, pub, |tasks|);
    if IsSyncOf(task, pub) {
      assert IsSyncOf((tasks + [task])[|tasks|], pub);
    }
  }

  lemma TargetsStay(tasks: seq<Task>, task: Task, post: Store.Post, targets: set<bytes>, at: int)
    requires TargetsOk(tasks, post, targets, at) && at <= |tasks|
    ensures TargetsOk(tasks + [task], post, targets, at)
  {
    forall pub ensures pub in targets <==> pub != post.author && SyncedBefore(tasks + [task], pub, at) {
      SyncedBeforeStays(tasks, task, pub, at);
    }
  }

  lemma JoinedKeepsBegun(r: Room, pub: bytes, since: int, k: nat, b: Begun)
    requires BegunOk(r, k, b)
    ensures BegunOk(Joined(r, pub, since), k, b)
  {
    if b.FanningOut? {
      TargetsStay(r.tasks, SyncTask(pub, since), r.tasks[k].post, b.targets, b.at);
    }
  }

  lemma AddedKeepsBegun(r: Room, post: Store.Post, k: nat, b: Begun)
    requires BegunOk(r, k, b) && post.id == r.lastId + 1
    ensures BegunOk(Added(r, post), k, b)
  {
    if b.FanningOut? {
      TargetsStay(r.tasks, FanOutTask(post), r.tasks[k].post, b.targets, b.at);
    }
  }

  lemma JoinedKeepsInv(r: Room, begun: map<nat, Begun>, first: nat, pub: bytes, since: int)
    requires Inv(r, begun, first)
    ensures Inv(Joined(r, pub, since), begun, first)
  {
    var t := Joined(r, pub, since);
    forall p ensures p in t.clients <==> SyncedBefore(t.tasks, p, |t.tasks|) {
      SyncedBeforeGrows(r.tasks, SyncTask(pub, since), p);
    }
    forall k | k in begun ensures BegunOk(t, k, begun[k]) {
      JoinedKeepsBegun(r, pub, since, k, begun[k]);
    }
  }

  lemma AddedKeepsInv(r: Room, begun: map<nat, Begun>, first: nat, post: Store.Post)
    requires Inv(r, begun, first) && post.id == r.lastId + 1
    ensures Inv(Added(r, post), begun, first)
  {
    var t := Added(r, post);
    forall p ensures p in t.clients <==> SyncedBefore(t.tasks, p, |t.tasks|) {
      SyncedBeforeGrows(r.tasks, FanOutTask(post), p);
    }
    forall k | k in begun ensures BegunOk(t, k, begun[k]) {
      AddedKeepsBegun(r, post, k, begun[k]);
    }
    forall i | first <= i < |t.posts| ensures FanOutTask(t.posts[i]) in t.tasks {
      assert i < |r.posts| ==> t.posts[i] == r.posts[i];
    }
    forall i, j | 0 <= i < j < |t.posts| ensures t.posts[i].id != t.posts[j].id {
      assert t.posts[i] in r.posts;
    }
  }

  /** A task that begins sees exactly what was there before it: its own start is recorded. */
  lemma BeginKeepsInv(r: Room, begun: map<nat, Begun>, first: nat, k: nat)
    requires Inv(r, begun, first) && k < |r.tasks|
    ensures Inv(r, begun[k := Beginning(r, r.tasks[k])], first)
  {
    match r.tasks[k]
    case SyncTask(pub, since) => Store.PostsSinceExact(r.posts, since, Some(pub));
    case FanOutTask(_) =>
  }

  lemma StepKeepsInv(host: Host, config: Config, w: World, e: Step, first: nat)
    requires host.pubKey != [] && Enabled(host, config, w, e) && Inv(RoomOf(w.s), w.begun, first)
    ensures var t := After(host, config, w, e); Inv(RoomOf(t.s), t.begun, first)
  {
    match e
    case Receive(f, o) =>
      FrameChanges(host, config, w.s, f, o);
      if o.LoggedIn? {
        JoinedKeepsInv(RoomOf(w.s), w.begun, first, o.req.clientPubKey, o.req.syncSince);
      } else if IsStored(o) {
        AddedKeepsInv(RoomOf(w.s), w.begun, first, Row(w.s.lastId, o.h));
      }
    case Begin(k) => BeginKeepsInv(RoomOf(w.s), w.begun, first, k);
    case Background(_, _, _) =>
  }

  /** A server that has just been created over a store. */
  ghost predicate IsNew(s: State) {
    s.sessions == map[] && s.spawned == [] && IdsOk(RoomOf(s))
  }

  lemma {:induction false} EveryRunKeepsInv(host: Host, config: Config, start: State, steps: seq<Step>)
    requires host.pubKey != [] && Runs(host, config, start, steps) && IsNew(start)
    ensures var w := Reached(host, config, start, steps); Inv(RoomOf(w.s), w.begun, |start.posts|)
    decreases |steps|
  {
    if steps != [] {
      var n := |steps| - 1;
      EveryRunKeepsInv(host, config, start, steps[..n]);
      StepKeepsInv(host, config, Reached(host, config, start, steps[..n]), steps[n], |start.posts|);
    }
  }

  // ---- nobody is left out ----

  /** Task k fans this post out, task m syncs this client, and both have begun. */
  ghost predicate Meet(w: World, k: nat, post: Store.Post, m: nat, pub: bytes, since: int) {
    && k in w.begun && m in w.begun && k < |w.s.spawned| && m < |w.s.spawned|
    && w.s.spawned[k] == FanOutTask(post) && w.s.spawned[m] == SyncTask(pub, since)
    && w.begun[k].FanningOut? && w.begun[m].Syncing?
  }

  /** In every run each client with a session has been given a sync, and each post stored in it a fan-out. */
  lemma EveryoneHasTasks(host: Host, config: Config, start: State, steps: seq<Step>)
    requires host.pubKey != [] && Runs(host, config, start, steps) && IsNew(start)
    ensures var w := Reached(host, config, start, steps);
      && (forall pub :: pub in w.s.sessions <==> SyncedBefore(w.s.spawned, pub, |w.s.spawned|))
      && (forall i :: |start.posts| <= i < |w.s.posts| ==> FanOutTask(w.s.posts[i]) in w.s.spawned)
  {
    EveryRunKeepsInv(host, config, start, steps);
    var w := Reached(host, config, start, steps);
    assert forall pub :: pub in w.s.sessions <==> pub in RoomOf(w.s).clients;
  }

  /**
    However frames and tasks interleave, a post reaches every other client: its fan-out goes to the client, or else the
    client's sync selects it, unless it is no newer than the client asked for.
   */
  lemma NobodyIsMissed(host: Host, config: Config, start: State, steps: seq<Step>, k: nat, post: Store.Post, m: nat,
                       pub: bytes, since: int)
    requires host.pubKey != [] && Runs(host, config, start, steps) && IsNew(start)
    requires Meet(Reached(host, config, start, steps), k, post, m, pub, since) && pub != post.author
    ensures var w := Reached(host, config, start, steps);
      pub in w.begun[k].targets || post in w.begun[m].posts || post.ts <= since
  {
    EveryRunKeepsInv(host, config, start, steps);
    var w := Reached(host, config, start, steps);
    assert BegunOk(RoomOf(w.s), k, w.begun[k]) && BegunOk(RoomOf(w.s), m, w.begun[m]);
    if m < w.begun[k].at {
      assert IsSyncOf(w.s.spawned[m], pub);
      assert SyncedBefore(w.s.spawned, pub, w.begun[k].at);
    }
  }

  /** The first sync of a client is the one to look for. */
  lemma FirstSync(tasks: seq<Task>, pub: bytes, m: nat, n: nat)
    requires m < |tasks| && n <= |tasks| && IsSyncOf(tasks[m], pub) && !SyncedBefore(tasks, pub, m)
    ensures SyncedBefore(tasks, pub, n) <==> m < n
  {
    if i :| 0 <= i < n && IsSyncOf(tasks[i], pub) {
      assert i < m ==> SyncedBefore(tasks, pub, m);
    }
  }

  /**
    It reaches a client twice, by its fan-out and by the client's first sync, exactly when it is newer than the client
    asked for and the two tasks were pending together: each had been started when the other began.
   */
  lemma ReachedTwiceExactly(host: Host, config: Config, start: State, steps: seq<Step>, k: nat, post: Store.Post,
                            m: nat, pub: bytes, since: int)
    requires host.pubKey != [] && Runs(host, config, start, steps) && IsNew(start)
    requires Meet(Reached(host, config, start, steps), k, post, m, pub, since) && pub != post.author
    requires !SyncedBefore(Reached(host, config, start, steps).s.spawned, pub, m)
    ensures var w := Reached(host, config, start, steps);
      pub in w.begun[k].targets && post in w.begun[m].posts <==>
        post.ts > since && m < w.begun[k].at && k < w.begun[m].at
  {
    EveryRunKeepsInv(host, config, start, steps);
    var w := Reached(host, config, start, steps);
    assert BegunOk(RoomOf(w.s), k, w.begun[k]) && BegunOk(RoomOf(w.s), m, w.begun[m]);
    FirstSync(w.s.spawned, pub, m, w.begun[k].at);
  }
}
