/** The engine over databases of different kinds: leveldb, which keeps what it was given until it is
    cleaned up, and redis, which forgets a copy when its time to live ends. Each action does to
    memory what the machine does when a load sees only what is left, and to each database what its
    own Sync does. */
module MixedBackends {
  import opened Entries
  import opened Merging
  import opened Databases
  import opened Agreement
  import M = Machine
  import R = Redis

  datatype Backend = LevelDb(table: Table) | RedisDb(keys: R.Keys)

  datatype State = State(
    clock: int,
    heap: seq<M.Session>,
    live: map<string, nat>,
    backends: seq<Backend>,
    timers: seq<M.Timer>)

  // ---------- What loads see, and what syncs do ----------

  predicate Kept(slot: R.Slot, now: int) {
    slot.gone.None? || now < slot.gone.value
  }

  /** What is left in the database now. */
  function Seen(b: Backend, now: int): Table {
    match b
    case LevelDb(table) => table
    case RedisDb(keys) => map sid | sid in keys && Kept(keys[sid], now) :: keys[sid].store
  }

  function View(x: State): M.State {
    var seen := seq(|x.backends|, i requires 0 <= i < |x.backends| => Seen(x.backends[i], x.clock));
    M.State(x.clock, x.heap, x.live, seen, x.timers)
  }

  function Received(b: Backend, p: Payload, now: int): Backend {
    match b
    case LevelDb(table) => LevelDb(Synced(table, p))
    case RedisDb(keys) => RedisDb(R.RedisSynced(keys, p, now))
  }

  function Forgot(b: Backend, sids: set<string>): Backend {
    match b
    case LevelDb(table) => LevelDb(table - sids)
    case RedisDb(keys) => RedisDb(keys - sids)
  }

  function ReceivedAll(bs: seq<Backend>, p: Payload, now: int): (r: seq<Backend>)
    ensures |r| == |bs| && forall i :: 0 <= i < |bs| ==> r[i] == Received(bs[i], p, now)
  {
    seq(|bs|, i requires 0 <= i < |bs| => Received(bs[i], p, now))
  }

  function ForgotAll(bs: seq<Backend>, sids: set<string>): (r: seq<Backend>)
    ensures |r| == |bs| && forall i :: 0 <= i < |bs| ==> r[i] == Forgot(bs[i], sids)
  {
    seq(|bs|, i requires 0 <= i < |bs| => Forgot(bs[i], sids))
  }

  /** Only leveldb has a Cleanup. */
  function Reopened(b: Backend, now: int, clean: bool): Backend {
    if clean && b.LevelDb? then LevelDb(Cleaned(b.table, now)) else b
  }

  function ReopenedAll(bs: seq<Backend>, now: int, cleaned: set<nat>): (r: seq<Backend>)
    ensures |r| == |bs| && forall i :: 0 <= i < |bs| ==> r[i] == Reopened(bs[i], now, i in cleaned)
  {
    seq(|bs|, i requires 0 <= i < |bs| => Reopened(bs[i], now, i in cleaned))
  }

  function After(x: State, a: M.Act): seq<Backend> {
    match a
    case Register(table) => x.backends + [LevelDb(table)]
    case Writing(h, w) =>
      if h < |x.heap|
      then ReceivedAll(x.backends, M.Snapshot(M.Mutated(x.heap, h, w)[h], Update, BLANK), x.clock) else x.backends
    case Destroying(sid) => if sid in x.live then ForgotAll(x.backends, {sid}) else x.backends
    case DestroyAll => ForgotAll(x.backends, x.live.Keys)
    case Fire(id) =>
      if M.CanFire(View(x), id) && x.timers[id].sid in x.live
      then ForgotAll(x.backends, {x.timers[id].sid}) else x.backends
    case Restart(cleaned) => ReopenedAll(x.backends, x.clock, cleaned)
    case _ => x.backends
  }

  function Step(x: State, a: M.Act): State {
    var m := M.Step(View(x), a);
    State(m.clock, m.heap, m.live, After(x, a), m.timers)
  }

  function Run(x: State, acts: seq<M.Act>): State
    decreases |acts|
  {
    if acts == [] then x else Run(Step(x, acts[0]), acts[1..])
  }

  /** A load from what is left in a database is the load of that kind of database. */
  lemma SeenIsLoaded(b: Backend, sid: string, now: int)
    requires sid != ""
    ensures Loaded(Seen(b, now), sid) ==
              match b
              case LevelDb(table) => R.PlainLoaded(table, sid)
              case RedisDb(keys) => R.RedisLoaded(keys, sid, now)
  {
  }

  // ---------- The machine it is compared with ----------

  /** The table holds what the database was given, forgotten copies included. */
  ghost predicate Tracked(b: Backend, t: Table) {
    match b
    case LevelDb(table) => table == t
    case RedisDb(keys) => R.Tracks(keys, t)
  }

  ghost predicate TrackedAll(bs: seq<Backend>, ts: seq<Table>) {
    |bs| == |ts| && forall i :: 0 <= i < |bs| ==> Tracked(bs[i], ts[i])
  }

  ghost predicate SameMemory(s: M.State, t: M.State) {
    s.clock == t.clock && s.heap == t.heap && s.live == t.live && s.timers == t.timers
  }

  ghost predicate StandsFor(x: State, s: M.State) {
    SameMemory(View(x), s) && TrackedAll(x.backends, s.dbs)
  }

  predicate InMemory(x: State, sid: string) {
    sid in x.live && x.live[sid] < |x.heap|
  }

  /** The id that the action loads from the databases. */
  function LoadedBy(x: State, a: M.Act): Option<string> {
    match a
    case Init(sid, _) => Some(sid)
    case Read(sid, _) => if InMemory(x, sid) then None else Some(sid)
    case Start(cookie, generated, _) =>
      if cookie == "" then Some(generated) else if InMemory(x, cookie) then None else Some(cookie)
    case _ => None
  }

  /** No redis database has dropped the session's copy ahead of its expiry, which happens in less
      than the last second before it. */
  ghost predicate OutsideWindows(x: State, sid: string) {
    forall i :: 0 <= i < |x.backends| && x.backends[i].RedisDb? ==> !R.InFinalWindow(x.backends[i].keys, sid, x.clock)
  }

  /** Ids are not empty, nothing is loaded within a final window, and only leveldb cleans up. */
  ghost predicate Smooth(x: State, a: M.Act) {
    && (LoadedBy(x, a).Some? ==> LoadedBy(x, a).value != "" && OutsideWindows(x, LoadedBy(x, a).value))
    && (a.Restart? ==> forall i :: i in a.cleaned && i < |x.backends| ==> x.backends[i].LevelDb?)
  }

  ghost predicate GoodMixed(x: State, acts: seq<M.Act>)
    decreases |acts|
  {
    acts == [] || (Good(View(x), acts[0]) && Smooth(x, acts[0]) && GoodMixed(Step(x, acts[0]), acts[1..]))
  }

  lemma LoadsAlike(b: Backend, t: Table, sid: string, now: int)
    requires Tracked(b, t) && sid != "" && (b.RedisDb? ==> !R.InFinalWindow(b.keys, sid, now))
    ensures var c, d := Loaded(Seen(b, now), sid), Loaded(t, sid); c == d || (Dead(c, now) && Dead(d, now))
  {
    if b.RedisDb? {
      R.LoadsLikePlain(b.keys, t, sid, now);
    }
  }

  lemma BornAlike(x: State, s: M.State, sid: string, expires: int)
    requires StandsFor(x, s) && sid != "" && OutsideWindows(x, sid)
    ensures M.NewSession(View(x), sid, expires) == M.NewSession(s, sid, expires)
  {
    var a, b := Copies(View(x).dbs, sid), Copies(s.dbs, sid);
    forall i | 0 <= i < |a| ensures a[i] == b[i] || (Dead(a[i], s.clock) && Dead(b[i], s.clock)) {
      LoadsAlike(x.backends[i], s.dbs[i], sid, s.clock);
    }
    ExpiredIsAbsent(a, b, s.clock);
  }

  /** Databases reach memory only through the loads of new sessions. */
  lemma MemoryFollowsLoads(x: State, s: M.State, a: M.Act)
    requires SameMemory(View(x), s)
    requires forall sid, e :: LoadedBy(x, a) == Some(sid) ==> M.NewSession(View(x), sid, e) == M.NewSession(s, sid, e)
    ensures SameMemory(M.Step(View(x), a), M.Step(s, a))
  {
    hide M.NewSession, M.Flashed, M.Collected, M.Shifted, SyncedAll, CleanedAll, Apply;
    if LoadedBy(x, a).Some? {
      var sid, e := LoadedBy(x, a).value, a.expires;
      assert M.NewSession(View(x), sid, e) == M.NewSession(s, sid, e);
    }
  }

  lemma ReceivedTracked(b: Backend, t: Table, p: Payload, now: int)
    requires Tracked(b, t)
    ensures Tracked(Received(b, p, now), Synced(t, p))
  {
    if b.RedisDb? {
      R.SyncTracks(b.keys, t, R.Timed(p, now));
    }
  }

  lemma BackendsFollow(x: State, s: M.State, a: M.Act)
    requires StandsFor(x, s) && Smooth(x, a)
    ensures TrackedAll(After(x, a), M.Step(s, a).dbs)
  {
    if a.Writing? && a.h < |x.heap| {
      var p := M.Snapshot(M.Mutated(x.heap, a.h, a.w)[a.h], Update, BLANK);
      forall i | 0 <= i < |x.backends| ensures Tracked(Received(x.backends[i], p, x.clock), Synced(s.dbs[i], p)) {
        ReceivedTracked(x.backends[i], s.dbs[i], p, x.clock);
      }
    }
    hide M.NewSession, M.Flashed, M.Collected, M.Shifted, Received, Synced, Encode, M.Mutated;
  }

  lemma StepStandsFor(x: State, s: M.State, a: M.Act)
    requires StandsFor(x, s) && Smooth(x, a)
    ensures StandsFor(Step(x, a), M.Step(s, a))
  {
    forall sid, e | LoadedBy(x, a) == Some(sid) ensures M.NewSession(View(x), sid, e) == M.NewSession(s, sid, e) {
      BornAlike(x, s, sid, e);
    }
    MemoryFollowsLoads(x, s, a);
    BackendsFollow(x, s, a);
    hide M.Step, M.NewSession, After;
  }

  lemma {:induction false} RunStandsFor(x: State, s: M.State, acts: seq<M.Act>)
    requires StandsFor(x, s) && GoodMixed(x, acts)
    ensures StandsFor(Run(x, acts), M.Run(s, acts)) && GoodRun(s, acts)
    decreases |acts|
  {
    hide Step, M.Step, StandsFor, Smooth, Good;
    if acts != [] {
      GoodAlike(x, s, acts[0]);
      StepStandsFor(x, s, acts[0]);
      RunStandsFor(Step(x, acts[0]), M.Step(s, acts[0]), acts[1..]);
    }
  }

  lemma GoodAlike(x: State, s: M.State, a: M.Act)
    requires StandsFor(x, s) && Good(View(x), a)
    ensures Good(s, a)
  {
  }

  // ---------- Agreement ----------

  /** No copy of the session is past its expiry or its time to live. */
  ghost predicate NoneGone(x: State, sid: string) {
    forall i :: 0 <= i < |x.backends| ==>
      match x.backends[i]
      case LevelDb(table) => !Expired(Loaded(table, sid).time, x.clock)
      case RedisDb(keys) => sid in keys ==> Kept(keys[sid], x.clock) && !Expired(keys[sid].store.time, x.clock)
  }

  ghost predicate AgreesMixed(x: State) {
    x.backends != [] ==>
      forall sid :: sid in x.live && sid != "" && NoneGone(x, sid) ==>
        && x.live[sid] < |x.heap|
        && var sess, copies := x.heap[x.live[sid]], Copies(View(x).dbs, sid);
           && Merge(copies, x.clock) == Erase(sess.values)
           && FirstTime(copies, x.clock) in {Zero, sess.life.time}
  }

  /** A process that has just started over databases that only Sync has written. */
  ghost predicate FreshMixed(x: State) {
    && x.heap == [] && x.live == map[] && x.timers == []
    && forall i :: 0 <= i < |x.backends| ==> Written(x.backends[i])
  }

  ghost predicate Written(b: Backend) {
    match b
    case LevelDb(table) => M.TableWF(table)
    case RedisDb(keys) => forall sid :: sid in keys ==> Clean(keys[sid].store) && R.Bounded(keys[sid])
  }

  /** Everything a database was given. */
  function Given(b: Backend): Table {
    match b
    case LevelDb(table) => table
    case RedisDb(keys) => map sid | sid in keys :: keys[sid].store
  }

  function Plain(x: State): M.State {
    View(x).(dbs := seq(|x.backends|, i requires 0 <= i < |x.backends| => Given(x.backends[i])))
  }

  lemma FreshStandsFor(x: State)
    requires FreshMixed(x)
    ensures StandsFor(x, Plain(x)) && M.Fresh(Plain(x))
  {
  }

  lemma AgreesFromPlain(x: State, s: M.State, sid: string)
    requires StandsFor(x, s) && M.WF(s) && AgreesOn(s, sid) && sid in x.live && sid != "" && NoneGone(x, sid)
    ensures var sess, copies := LiveSession(s, sid), Copies(View(x).dbs, sid);
            && Merge(copies, x.clock) == Erase(sess.values)
            && FirstTime(copies, x.clock) in {Zero, sess.life.time}
  {
    var a, b := Copies(View(x).dbs, sid), Copies(s.dbs, sid);
    forall i | 0 <= i < |a| ensures a[i] == b[i] && !Expired(b[i].time, s.clock) {
      assert Tracked(x.backends[i], s.dbs[i]);
    }
    assert a == b;
    assert NoneExpired(s, sid);
  }

  /** Cache agreement over databases that mix both kinds: in every run that registers databases
      first, writes through registered sessions and loads no session within a final window, merging
      what is left in the databases gives every live session as memory holds it, unless a copy of
      it is past its expiry or its time to live. */
  lemma EveryMixedRunAgrees(x: State, acts: seq<M.Act>)
    requires FreshMixed(x) && GoodMixed(x, acts)
    ensures AgreesMixed(Run(x, acts))
  {
    var s := Plain(x);
    FreshStandsFor(x);
    RunStandsFor(x, s, acts);
    EveryRunAgrees(s, acts);
    var y, t := Run(x, acts), M.Run(s, acts);
    hide GoodMixed, GoodRun, M.Run, Run, Merge, FirstTime;
    if y.backends != [] {
      forall sid | sid in y.live && sid != "" && NoneGone(y, sid)
        ensures && y.live[sid] < |y.heap|
                && var sess, copies := y.heap[y.live[sid]], Copies(View(y).dbs, sid);
                   && Merge(copies, y.clock) == Erase(sess.values)
                   && FirstTime(copies, y.clock) in {Zero, sess.life.time}
      {
        assert AgreesOn(t, sid);
        AgreesFromPlain(y, t, sid);
      }
    }
  }
}
