/** The session engine as a step machine: provider.go, lifetime.go, the write and flash side of
    session.go, and Start in sessions.go. A handle is a `*Session`: it stays usable after the
    session has been destroyed or replaced, and it is registered while `live` maps its id to it. */
module Machine {
  import opened Entries
  import opened Merging
  import opened Databases

  datatype Flash = Flash(value: Value, shouldRemove: bool)

  /** LifeTime: the stored time and, if one was started, the index of its timer. */
  datatype Life = Life(time: Time, timer: Option<nat>)

  datatype Session = Session(sid: string, isNew: bool, values: seq<Entry>, flashes: map<string, Flash>, life: Life)

  /** A `time.AfterFunc` that calls Destroy(sid). */
  datatype Timer = Timer(sid: string, deadline: int, pending: bool)

  datatype State = State(
    clock: int,
    heap: seq<Session>,
    live: map<string, nat>,
    dbs: seq<Table>,
    timers: seq<Timer>)

  datatype FlashOp = SetFlash(key: string, value: Value) | GetFlash(key: string) | PeekFlash(key: string)
                   | GetFlashes | DeleteFlash(key: string) | ClearFlashes

  datatype Act =
    | Register(table: Table)
    | Init(sid: string, expires: int)
    | Read(sid: string, expires: int)
    | Start(cookie: string, generated: string, expires: int)
    | Writing(h: nat, w: Write)
    | Flashing(h: nat, f: FlashOp)
    | UpdateExpiration(sid: string, expires: int)
    | Destroying(sid: string)
    | DestroyAll
    | Tick(d: nat)
    | Fire(id: nat)
    | Restart(cleaned: set<nat>)  // memory is lost; the named databases run Cleanup when reopened

  // ---------- Lifetimes ----------

  /** Begin (lifetime.go:20-27) on a zero LifeTime. */
  function Begun(now: int, timers: seq<Timer>, sid: string, d: int): (Life, seq<Timer>) {
    if d <= 0 then (Life(Zero, None), timers)
    else (Life(At(now + d), Some(|timers|)), timers + [Timer(sid, now + d, true)])
  }

  /** Revive (lifetime.go:31-41) of a stored time. */
  function Revived(now: int, timers: seq<Timer>, sid: string, t: Time): (Life, seq<Timer>) {
    if t.At? && t.ns > now then (Life(t, Some(|timers|)), timers + [Timer(sid, t.ns, true)])
    else (Life(t, None), timers)
  }

  /** Shift (lifetime.go:44-48): the timer is reset, the stored time is left alone. */
  function Shifted(now: int, timers: seq<Timer>, life: Life, d: int): seq<Timer> {
    if d > 0 && life.timer.Some? && life.timer.value < |timers|
    then timers[life.timer.value := timers[life.timer.value].(deadline := now + d, pending := true)]
    else timers
  }

  // ---------- Flash messages ----------

  function Collected(fs: map<string, Flash>): map<string, Flash> {
    map k | k in fs && !fs[k].shouldRemove :: fs[k]
  }

  function Flashed(fs: map<string, Flash>, op: FlashOp): map<string, Flash> {
    match op
    case SetFlash(k, v) => fs[k := Flash(v, false)]
    case GetFlash(k) => if k in fs then fs[k := fs[k].(shouldRemove := true)] else fs
    case PeekFlash(k) => fs
    case GetFlashes => map k | k in fs :: fs[k].(shouldRemove := true)
    case DeleteFlash(k) => fs - {k}
    case ClearFlashes => map[]
  }

  // ---------- The provider ----------

  /** The lifetime of a new session, given the stored time that was loaded. */
  function Born(now: int, timers: seq<Timer>, sid: string, stored: Time, expires: int): (Life, seq<Timer>) {
    if stored != Zero then Revived(now, timers, sid, stored) else Begun(now, timers, sid, expires)
  }

  function NewSession(s: State, sid: string, expires: int): (Session, seq<Timer>) {
    var copies := Copies(s.dbs, sid);
    var (life, timers) := Born(s.clock, s.timers, sid, FirstTime(copies, s.clock), expires);
    (Session(sid, false, Merge(copies, s.clock), map[], life), timers)
  }

  function Inited(s: State, sid: string, expires: int): State {
    var (sess, timers) := NewSession(s, sid, expires);
    s.(heap := s.heap + [sess], live := s.live[sid := |s.heap|], timers := timers)
  }

  function ReadAt(s: State, sid: string, expires: int): State {
    if sid in s.live && s.live[sid] < |s.heap|
    then
      var h := s.live[sid];
      s.(heap := s.heap[h := s.heap[h].(flashes := Collected(s.heap[h].flashes))])
    else Inited(s, sid, expires)
  }

  /** Start (sessions.go:144-161) on the decoded cookie value. */
  function Started(s: State, cookie: string, generated: string, expires: int): State {
    if cookie != "" then ReadAt(s, cookie, expires)
    else
      var r := Inited(s, generated, expires);
      var h := |s.heap|;
      r.(heap := r.heap[h := r.heap[h].(isNew := r.heap[h].values == [])])
  }

  function IsNewAfter(sess: Session, w: Write): bool {
    sess.isNew && w.Del? && !Has(sess.values, w.key)
  }

  /** The store part of the payload built by set, Delete and Clear. */
  function Snapshot(sess: Session, action: Action, value: Entry): Payload {
    Payload(sess.sid, action, value, sess.values, sess.life.time)
  }

  /** The mutation of set, Delete and Clear, before the databases hear of it. */
  function Mutated(heap: seq<Session>, h: nat, w: Write): (r: seq<Session>)
    requires h < |heap|
    ensures |r| == |heap|
  {
    heap[h := heap[h].(values := Apply(heap[h].values, w), isNew := IsNewAfter(heap[h], w))]
  }

  function Wrote(s: State, h: nat, w: Write): State
    requires h < |s.heap|
  {
    var heap := Mutated(s.heap, h, w);
    s.(heap := heap, dbs := SyncedAll(s.dbs, Snapshot(heap[h], Update, BLANK)))
  }

  function TablesWithout(ts: seq<Table>, sids: set<string>): (r: seq<Table>)
    ensures |r| == |ts| && forall i :: 0 <= i < |ts| ==> r[i] == ts[i] - sids
  {
    seq(|ts|, i requires 0 <= i < |ts| => ts[i] - sids)
  }

  function Destroyed(s: State, sid: string): State {
    if sid in s.live then s.(live := s.live - {sid}, dbs := TablesWithout(s.dbs, {sid})) else s
  }

  predicate CanFire(s: State, id: nat) {
    id < |s.timers| && s.timers[id].pending && s.timers[id].deadline <= s.clock
  }

  function Step(s: State, a: Act): State {
    match a
    case Register(table) => s.(dbs := s.dbs + [table])
    case Init(sid, expires) => Inited(s, sid, expires)
    case Read(sid, expires) => ReadAt(s, sid, expires)
    case Start(cookie, generated, expires) => Started(s, cookie, generated, expires)
    case Writing(h, w) => if h < |s.heap| then Wrote(s, h, w) else s
    case Flashing(h, f) =>
      if h < |s.heap| then s.(heap := s.heap[h := s.heap[h].(flashes := Flashed(s.heap[h].flashes, f))]) else s
    case UpdateExpiration(sid, expires) =>
      if expires > 0 && sid in s.live && s.live[sid] < |s.heap|
      then s.(timers := Shifted(s.clock, s.timers, s.heap[s.live[sid]].life, expires)) else s
    case Destroying(sid) => Destroyed(s, sid)
    case DestroyAll => s.(live := map[], dbs := TablesWithout(s.dbs, s.live.Keys))
    case Tick(d) => s.(clock := s.clock + d)
    case Fire(id) =>
      if CanFire(s, id)
      then Destroyed(s.(timers := s.timers[id := s.timers[id].(pending := false)]), s.timers[id].sid) else s
    case Restart(cleaned) =>
      State(s.clock, [], map[], CleanedAll(s.dbs, s.clock, cleaned), [])
  }

  function Run(s: State, acts: seq<Act>): State
    decreases |acts|
  {
    if acts == [] then s else Run(Step(s, acts[0]), acts[1..])
  }

  lemma RunTwo(s: State, a: Act, b: Act)
    ensures Run(s, [a, b]) == Step(Step(s, a), b)
  {
    hide Step;
    assert [a, b][1..] == [b];
    assert Run(Step(s, a), [b]) == Run(Step(Step(s, a), b), [b][1..]);
  }

  // ---------- Well-formed states ----------

  /** The handle is the one registered under its id. */
  ghost predicate Registered(s: State, h: nat) {
    h < |s.heap| && s.heap[h].sid in s.live && s.live[s.heap[h].sid] == h
  }

  ghost predicate LiveWF(s: State) {
    forall sid :: sid in s.live ==> s.live[sid] < |s.heap| && s.heap[s.live[sid]].sid == sid
  }

  ghost predicate ValuesWF(s: State) {
    forall h :: 0 <= h < |s.heap| ==> UniqueKeys(s.heap[h].values) && (s.heap[h].isNew ==> s.heap[h].values == [])
  }

  ghost predicate TableWF(t: Table) {
    forall sid :: sid in t ==> Clean(t[sid])
  }

  ghost predicate DbsWF(s: State) {
    forall i :: 0 <= i < |s.dbs| ==> TableWF(s.dbs[i])
  }

  ghost predicate WF(s: State) {
    LiveWF(s) && ValuesWF(s) && DbsWF(s)
  }

  /** A process that has just started: whatever the databases hold, memory is empty. */
  ghost predicate Fresh(s: State) {
    s.heap == [] && s.live == map[] && s.timers == [] && DbsWF(s)
  }

  lemma NewSessionWF(s: State, sid: string, expires: int)
    ensures var sess := NewSession(s, sid, expires).0; UniqueKeys(sess.values) && Flagless(sess.values) && !sess.isNew
  {
    MergeKeeps(Copies(s.dbs, sid), s.clock);
  }

  /** Registering a table only if it was written by Sync. */
  ghost predicate Admissible(a: Act) {
    a.Register? ==> TableWF(a.table)
  }

  lemma StepKeepsValues(s: State, a: Act)
    requires ValuesWF(s)
    ensures ValuesWF(Step(s, a))
  {
    match a
    case Init(sid, e) => NewSessionWF(s, sid, e);
    case Read(sid, e) => NewSessionWF(s, sid, e);
    case Start(cookie, generated, e) => NewSessionWF(s, cookie, e); NewSessionWF(s, generated, e);
    case Writing(h, w) => if h < |s.heap| { ApplyKeepsUnique(s.heap[h].values, w); }
    case _ =>
    hide NewSession, UniqueKeys, Flagless, Collected, Flashed, SyncedAll, TablesWithout, CleanedAll, Shifted;
  }

  lemma StepKeepsDbs(s: State, a: Act)
    requires ValuesWF(s) && DbsWF(s) && Admissible(a)
    ensures DbsWF(Step(s, a))
  {
    match a
    case Writing(h, w) => if h < |s.heap| { ApplyKeepsUnique(s.heap[h].values, w); }
    case _ =>
    hide NewSession, UniqueKeys, Flagless, Collected, Flashed, Shifted, Apply;
  }

  lemma StepKeepsLive(s: State, a: Act)
    requires LiveWF(s)
    ensures LiveWF(Step(s, a))
  {
    hide Merge, FirstTime, Copies, Collected, Flashed, SyncedAll, TablesWithout, CleanedAll;
    hide Shifted, Born, Apply;
  }

  lemma StepKeepsWF(s: State, a: Act)
    requires WF(s) && Admissible(a)
    ensures WF(Step(s, a))
  {
    StepKeepsValues(s, a);
    StepKeepsDbs(s, a);
    StepKeepsLive(s, a);
  }

  function Registrations(ts: seq<Table>): seq<Act> {
    seq(|ts|, i requires 0 <= i < |ts| => Register(ts[i]))
  }

  lemma {:induction false} RegistersInOrder(now: int, done: seq<Table>, ts: seq<Table>)
    ensures Run(State(now, [], map[], done, []), Registrations(ts)) == State(now, [], map[], done + ts, [])
    decreases |ts|
  {
    if ts == [] {
      assert done + ts == done;
    } else {
      RegistersInOrder(now, done + [ts[0]], ts[1..]);
      assert Registrations(ts)[1..] == Registrations(ts[1..]);
      assert done + [ts[0]] + ts[1..] == done + ts;
    }
  }

  /** A restart is a new provider with which the surviving databases are registered again. */
  lemma RestartIsANewProvider(s: State, cleaned: set<nat>)
    ensures Step(s, Restart(cleaned))
            == Run(State(s.clock, [], map[], [], []), Registrations(CleanedAll(s.dbs, s.clock, cleaned)))
  {
    RegistersInOrder(s.clock, [], CleanedAll(s.dbs, s.clock, cleaned));
  }
}
