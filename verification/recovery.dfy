/** What survives a restart, and what a destroy really removes. */
module Recovery {
  import opened Entries
  import opened Merging
  import opened Databases
  import opened Machine
  import opened Agreement
  import opened Expiry

  /** The action can bring the session into memory, or changes the list of databases. */
  predicate Touches(a: Act, sid: string) {
    match a
    case Init(id, _) => id == sid
    case Read(id, _) => id == sid
    case Start(cookie, generated, _) => cookie == sid || (cookie == "" && generated == sid)
    case Register(_) => true
    case _ => false
  }

  /** A run that does not start the session again, writes nothing through a handle it once had,
      and registers nothing. Other sessions may be written through whatever handle. */
  ghost predicate Quiet(s: State, acts: seq<Act>, sid: string)
    decreases |acts|
  {
    acts == [] || (QuietAct(s, acts[0], sid) && Quiet(Step(s, acts[0]), acts[1..], sid))
  }

  ghost predicate QuietAct(s: State, a: Act, sid: string) {
    !Touches(a, sid) && (a.Writing? && a.h < |s.heap| ==> s.heap[a.h].sid != sid)
  }

  ghost predicate SameForLoad(s: State, t: State, sid: string) {
    s.clock <= t.clock && SameUnexpired(Copies(s.dbs, sid), Copies(t.dbs, sid), t.clock)
  }

  lemma QuietStep(s: State, a: Act, sid: string)
    requires WF(s) && QuietAct(s, a, sid) && sid !in s.live
    ensures sid !in Step(s, a).live && SameForLoad(s, Step(s, a), sid)
  {
  }

  lemma SameForLoadTrans(s: State, t: State, u: State, sid: string)
    requires SameForLoad(s, t, sid) && SameForLoad(t, u, sid)
    ensures SameForLoad(s, u, sid)
  {
    var a, b, c := Copies(s.dbs, sid), Copies(t.dbs, sid), Copies(u.dbs, sid);
    forall i | 0 <= i < |a| ensures a[i] == c[i] || (Dead(a[i], u.clock) && Dead(c[i], u.clock)) {
      assert a[i] == b[i] || (Dead(a[i], u.clock) && Dead(b[i], u.clock));
    }
  }

  lemma {:induction false} QuietRun(s: State, acts: seq<Act>, sid: string)
    requires WF(s) && Quiet(s, acts, sid) && sid !in s.live
    ensures var t := Run(s, acts); WF(t) && sid !in t.live && SameForLoad(s, t, sid)
    decreases |acts|
  {
    if acts != [] {
      var t := Step(s, acts[0]);
      StepKeepsWF(s, acts[0]);
      QuietStep(s, acts[0], sid);
      QuietRun(t, acts[1..], sid);
      SameForLoadTrans(s, t, Run(t, acts[1..]), sid);
    }
  }

  /** Restart, anything quiet, then a read. */
  function AfterRestart(s: State, cleaned: set<nat>, acts: seq<Act>): State {
    Run(Step(s, Restart(cleaned)), acts)
  }

  lemma RestartThenQuiet(s: State, cleaned: set<nat>, acts: seq<Act>, sid: string)
    requires WF(s) && Quiet(Step(s, Restart(cleaned)), acts, sid)
    ensures var t := AfterRestart(s, cleaned, acts);
            && WF(t) && sid !in t.live && s.clock <= t.clock
            && Merge(Copies(t.dbs, sid), t.clock) == Merge(Copies(s.dbs, sid), t.clock)
            && FirstTime(Copies(t.dbs, sid), t.clock) == FirstTime(Copies(s.dbs, sid), t.clock)
  {
    var r, t := Step(s, Restart(cleaned)), AfterRestart(s, cleaned, acts);
    StepKeepsWF(s, Restart(cleaned));
    QuietRun(r, acts, sid);
    CleanupIsInvisible(s.dbs, cleaned, s.clock, t.clock, sid);
    ExpiredIsAbsent(Copies(r.dbs, sid), Copies(t.dbs, sid), t.clock);
  }

  /** The lifetime a newly created session gets from the stored time, or from the configuration
      when nothing is stored. A stored time still ahead gets a timer for exactly that time. */
  ghost predicate LifeFrom(t: State, sid: string, stored: Time, now: int, expires: int)
    requires LiveWF(t) && sid in t.live
  {
    var life := LiveSession(t, sid).life;
    var due := if stored.At? then stored.ns else now + expires;
    && (stored.At? || expires > 0 ==> life.time == At(due))
    && (stored == Zero && expires <= 0 ==> life == Life(Zero, None))
    && (life.timer.Some? <==> (stored.At? && stored.ns > now) || (stored == Zero && expires > 0))
    && (life.timer.Some? ==> life.timer.value < |t.timers| && t.timers[life.timer.value] == Timer(sid, due, true))
  }

  lemma ReadMisses(s: State, sid: string, expires: int)
    requires WF(s) && sid !in s.live
    ensures var t := Step(s, Read(sid, expires));
            && WF(t) && sid in t.live && LiveSession(t, sid).flashes == map[]
            && LiveSession(t, sid).values == Merge(Copies(s.dbs, sid), s.clock)
            && LifeFrom(t, sid, FirstTime(Copies(s.dbs, sid), s.clock), s.clock, expires)
  {
    StepKeepsWF(s, Read(sid, expires));
  }

  /** Restart recovery: lose memory in any state that the agreement covers, let anything happen
      that does not start the session again, and read it. Its lifetime is that of the first stored
      time that has not expired, or a new one. If no stored copy has expired by then, the keys,
      order and values come back, and if they were ever written, with the session's own expiry and
      a timer for exactly that time while it is ahead. If every stored copy has expired or is
      missing, the session starts empty with a new life. */
  lemma RestartRecovery(s: State, sid: string, cleaned: set<nat>, acts: seq<Act>, expires: int)
    requires WF(s) && Agrees(s) && s.dbs != [] && sid != "" && sid in s.live
    requires Quiet(Step(s, Restart(cleaned)), acts, sid)
    ensures var t := AfterRestart(s, cleaned, acts);
            var u, was := Step(t, Read(sid, expires)), LiveSession(s, sid);
            && WF(u) && sid in u.live && LiveSession(u, sid).flashes == map[]
            && LifeFrom(u, sid, FirstTime(Copies(s.dbs, sid), t.clock), t.clock, expires)
            && (NoneExpired(s.(clock := t.clock), sid) ==> LiveSession(u, sid).values == Erase(was.values))
            && (NoneExpired(s.(clock := t.clock), sid) && MirroredOn(s, was) ==>
                  LifeFrom(u, sid, was.life.time, t.clock, expires))
            && ((forall i :: 0 <= i < |s.dbs| ==> Dead(Loaded(s.dbs[i], sid), t.clock)) ==>
                  LiveSession(u, sid).values == [] && LifeFrom(u, sid, Zero, t.clock, expires))
  {
    var t, was := AfterRestart(s, cleaned, acts), LiveSession(s, sid);
    RestartThenQuiet(s, cleaned, acts, sid);
    ReadMisses(t, sid, expires);
    var copies := Copies(s.dbs, sid);
    if NoneExpired(s.(clock := t.clock), sid) {
      MergeIgnoresClock(copies, s.clock, t.clock);
      assert AgreesOn(s, sid);
      if MirroredOn(s, was) {
        MirroredMerge(s, sid, t.clock);
      }
    }
    if forall i :: 0 <= i < |s.dbs| ==> Dead(Loaded(s.dbs[i], sid), t.clock) {
      MergeOfDead(copies, t.clock);
    }
  }

  /** What a load makes of the copies of a session that every database mirrors. */
  lemma MirroredMerge(s: State, sid: string, now: int)
    requires WF(s) && s.dbs != [] && sid != "" && sid in s.live && MirroredOn(s, LiveSession(s, sid))
    ensures var was, copies := LiveSession(s, sid), Copies(s.dbs, sid);
            if Expired(was.life.time, now) then Merge(copies, now) == [] && FirstTime(copies, now) == Zero
            else Merge(copies, now) == Erase(was.values) && FirstTime(copies, now) == was.life.time
  {
    var was, copies := LiveSession(s, sid), Copies(s.dbs, sid);
    var c := Remote(Erase(was.values), was.life.time);
    assert forall i :: 0 <= i < |s.dbs| ==> copies[i] == c;
    if Expired(was.life.time, now) {
      MergeOfDead(copies, now);
    } else {
      MergeOfIdentical(copies, c, now);
    }
  }

  /** The clock is read when the copies are loaded and again when the lifetime is revived. A session
      created with an expiry time has no timer if and only if the first unexpired stored time lies
      between the two readings: it had not expired at the first and was not ahead at the second. */
  lemma NoTimerIffDueBetweenReadings(
    copies: seq<Remote>, loaded: int, revived: int, timers: seq<Timer>, sid: string, expires: int)
    requires loaded <= revived
    ensures var stored := FirstTime(copies, loaded);
            var life := Born(revived, timers, sid, stored, expires).0;
            life.time.At? && life.timer.None? <==> stored.At? && loaded <= stored.ns <= revived
  {
    FirstTimeNotExpired(copies, loaded);
  }

  /** With one reading, as in the machine, that is the very instant of the stored time. */
  lemma NoTimerExactlyAtTheInstant(s: State, sid: string, expires: int)
    ensures var life := NewSession(s, sid, expires).0.life;
            life.time.At? && life.timer.None? <==> FirstTime(Copies(s.dbs, sid), s.clock) == At(s.clock)
  {
    NoTimerIffDueBetweenReadings(Copies(s.dbs, sid), s.clock, s.clock, s.timers, sid, expires);
  }

  lemma {:induction false} FirstTimeNotExpired(copies: seq<Remote>, now: int)
    ensures !Expired(FirstTime(copies, now), now)
  {
    if copies != [] {
      FirstTimeNotExpired(copies[1..], now);
    }
  }

  /** Such a session exists: it is read at the instant of its stored time, and no timer ends it. */
  lemma SessionWithoutTimer(sid: string, values: seq<Entry>)
    requires sid != "" && UniqueKeys(values) && Flagless(values)
    ensures var s := State(5, [], map[], [map[sid := Remote(values, At(5))]], []);
            var t := Step(s, Read(sid, 100));
            && Fresh(s) && LiveWF(t) && sid in t.live
            && LiveSession(t, sid).life == Life(At(5), None) && t.timers == []
  {
    var s := State(5, [], map[], [map[sid := Remote(values, At(5))]], []);
    assert Copies(s.dbs, sid)[0] == Remote(values, At(5));
    assert FirstTime(Copies(s.dbs, sid), 5) == At(5);
  }

  /** A run in which the session stays registered under the handle and is not written, whatever
      else happens: it may be read, prolonged and flashed, and others may come and go. */
  ghost predicate HeldUnwritten(s: State, acts: seq<Act>, sid: string, h: nat)
    decreases |acts|
  {
    && h < |s.heap| && sid in s.live && s.live[sid] == h
    && (acts != [] ==>
          && !acts[0].Register? && !acts[0].Restart?
          && (acts[0].Writing? && acts[0].h < |s.heap| ==> s.heap[acts[0].h].sid != sid)
          && HeldUnwritten(Step(s, acts[0]), acts[1..], sid, h))
  }

  /** What a restart depends on stays as it was. */
  ghost predicate SameStored(s: State, t: State, sid: string)
    requires LiveWF(s) && LiveWF(t)
  {
    && sid in s.live && sid in t.live && |t.dbs| == |s.dbs|
    && LiveSession(t, sid).values == LiveSession(s, sid).values && LiveSession(t, sid).life == LiveSession(s, sid).life
    && (MirroredOn(s, LiveSession(s, sid)) ==> MirroredOn(t, LiveSession(t, sid)))
  }

  ghost predicate HeldAct(s: State, a: Act, sid: string, h: nat) {
    && h < |s.heap| && s.heap[h].sid == sid && sid in s.live && s.live[sid] == h
    && sid in Step(s, a).live && Step(s, a).live[sid] == h
    && !a.Register? && !a.Restart? && (a.Writing? && a.h < |s.heap| ==> s.heap[a.h].sid != sid)
  }

  lemma HeldMemory(s: State, a: Act, sid: string, h: nat)
    requires HeldAct(s, a, sid, h)
    ensures var t := Step(s, a);
            h < |t.heap| && t.heap[h].values == s.heap[h].values && t.heap[h].life == s.heap[h].life
  {
    hide Merge, FirstTime, Born, SyncedAll, TablesWithout, Flashed, Collected, Apply;
  }

  lemma HeldTables(s: State, a: Act, sid: string, h: nat)
    requires HeldAct(s, a, sid, h)
    ensures var t := Step(s, a);
            && |t.dbs| == |s.dbs|
            && forall i :: 0 <= i < |s.dbs| ==>
                 (sid in t.dbs[i] <==> sid in s.dbs[i]) && (sid in s.dbs[i] ==> t.dbs[i][sid] == s.dbs[i][sid])
  {
    hide NewSession, Flashed, Collected, Apply, Erase, Encode;
  }

  lemma HeldStep(s: State, a: Act, sid: string, h: nat)
    requires WF(s) && HeldAct(s, a, sid, h)
    ensures var t := Step(s, a); WF(t) && SameStored(s, t, sid)
  {
    StepKeepsWF(s, a);
    HeldMemory(s, a, sid, h);
    HeldTables(s, a, sid, h);
    hide Step, ValuesWF, DbsWF, Erase;
  }

  lemma {:induction false} HeldRun(s: State, acts: seq<Act>, sid: string, h: nat)
    requires WF(s) && HeldUnwritten(s, acts, sid, h)
    ensures WF(Run(s, acts)) && SameStored(s, Run(s, acts), sid)
    decreases |acts|
  {
    if acts != [] {
      assert HeldUnwritten(Step(s, acts[0]), acts[1..], sid, h);
      HeldStep(s, acts[0], sid, h);
      HeldRun(Step(s, acts[0]), acts[1..], sid, h);
    }
  }

  /** UpdateExpiration never reaches the databases. Take a session that is mirrored there and any
      run in which timers are punctual and which holds it, by whatever prolonging, and does not
      write it: no timer is overdue, so it is still there by right. If memory is then lost and the
      session read again, it comes back as it was if and only if it holds nothing, never expires, or
      its stored time, which is still the original one, has not passed. */
  lemma ProlongedLifeSurvivesRestartIff(s: State, acts: seq<Act>, sid: string, cleaned: set<nat>, again: int)
    requires WF(s) && TimersArmed(s) && OnTime(s) && s.dbs != [] && sid != "" && sid in s.live
    requires MirroredOn(s, LiveSession(s, sid))
    requires PunctualRun(s, acts) && HeldUnwritten(s, acts, sid, s.live[sid])
    ensures var was, t := LiveSession(s, sid), Run(s, acts);
            && WF(t) && TimersArmed(t) && OnTime(t) && sid in t.live
            && LiveSession(t, sid).values == was.values && LiveSession(t, sid).life == was.life
            && var u := Step(Step(t, Restart(cleaned)), Read(sid, again));
               && WF(u) && sid in u.live
               && (LiveSession(u, sid).values == Erase(was.values)
                   <==> was.values == [] || was.life.time == Zero || t.clock <= was.life.time.ns)
  {
    var was := LiveSession(s, sid);
    HeldRun(s, acts, sid, s.live[sid]);
    LiveSessionsHaveTheirTimers(s, acts);
    RestartOfMirrored(Run(s, acts), sid, cleaned, again);
    assert Erase(was.values) == [] <==> was.values == [];
    hide Run, Step, PunctualRun, WF, TimersArmed, OnTime, HeldUnwritten;
  }

  lemma RestartOfMirrored(t: State, sid: string, cleaned: set<nat>, again: int)
    requires WF(t) && t.dbs != [] && sid != "" && sid in t.live && MirroredOn(t, LiveSession(t, sid))
    ensures var was, u := LiveSession(t, sid), Step(Step(t, Restart(cleaned)), Read(sid, again));
            && WF(u) && sid in u.live
            && LiveSession(u, sid).values == if Expired(was.life.time, t.clock) then [] else Erase(was.values)
  {
    StepKeepsWF(t, Restart(cleaned));
    CleanupIsInvisible(t.dbs, cleaned, t.clock, t.clock, sid);
    ReadMisses(Step(t, Restart(cleaned)), sid, again);
    MirroredMerge(t, sid, t.clock);
  }

  /** An input that loses the session: it lives ten units, is prolonged to a hundred, and is gone
      after a restart at eleven although its timer still has time to run. */
  lemma ProlongedLifeIsLost(sid: string, e: Entry, again: int)
    requires sid != "" && !e.immutable
    ensures var c := Remote([e], At(10));
            var s := State(0, [Session(sid, false, [e], map[], Life(At(10), Some(0)))], map[sid := 0],
                           [map[sid := c]], [Timer(sid, 10, true)]);
            var t := Run(s, [UpdateExpiration(sid, 100), Tick(11)]);
            var u := Step(Step(t, Restart({})), Read(sid, again));
            && PunctualRun(s, [UpdateExpiration(sid, 100), Tick(11)]) && !Punctual(s, Tick(11))
            && sid in t.live && WF(u) && sid in u.live && LiveSession(u, sid).values != [e]
  {
    var c := Remote([e], At(10));
    var s := State(0, [Session(sid, false, [e], map[], Life(At(10), Some(0)))], map[sid := 0],
                   [map[sid := c]], [Timer(sid, 10, true)]);
    var a, b := UpdateExpiration(sid, 100), Tick(11);
    RunTwo(s, a, b);
    assert [a, b][1..] == [b] && [b][1..] == [];
    assert Erase([e]) == [e];
    assert s.timers[0].pending;
    assert !Punctual(s, b);
    var m := Step(s, a);
    assert PunctualRun(m, [b]);
    assert HeldUnwritten(Step(m, b), [], sid, 0);
    assert HeldUnwritten(m, [b], sid, 0);
    ProlongedLifeSurvivesRestartIff(s, [a, b], sid, {}, again);
  }

  /** The session with the empty id is written to the databases but never loaded from them, so
      the two agree exactly while it holds nothing. */
  lemma EmptyIdAgreesOnlyWhenEmpty(s: State)
    requires LiveWF(s) && "" in s.live
    ensures AgreesOn(s, "") <==> LiveSession(s, "").values == []
  {
    MergeOfDead(Copies(s.dbs, ""), s.clock);
    assert NoneExpired(s, "");
    var es := LiveSession(s, "").values;
    assert Erase(es) == [] <==> es == [];
  }

  /** And it soon does not agree: one write to it is enough. */
  lemma EmptyIdLosesItsData(k: string, v: Value)
    ensures var s := State(0, [], map[], [map[]], []);
            var acts := [Init("", 0), Writing(0, Put(k, v, false))];
            var t := Run(s, acts);
            Fresh(s) && GoodRun(s, acts) && LiveWF(t) && "" in t.live && !AgreesOn(t, "")
  {
    var s := State(0, [], map[], [map[]], []);
    var a, b := Init("", 0), Writing(0, Put(k, v, false));
    var m := Step(s, a);
    var t := Step(m, b);
    RunTwo(s, a, b);
    StepKeepsWF(s, a);
    StepKeepsWF(m, b);
    assert Merge(Copies(s.dbs, ""), 0) == [];
    assert m.heap[0].values == [] && m.live == map["" := 0];
    assert [a, b][1..] == [b] && [b][1..] == [];
    assert GoodRun(m, [b]);
    EmptyIdAgreesOnlyWhenEmpty(t);
  }

  // ---------- Destroy ----------

  ghost predicate Absent(s: State, sid: string) {
    sid !in s.live && forall i :: 0 <= i < |s.dbs| ==> sid !in s.dbs[i]
  }

  lemma AbsentStep(s: State, a: Act, sid: string)
    requires WF(s) && QuietAct(s, a, sid) && Absent(s, sid)
    ensures Absent(Step(s, a), sid)
  {
  }

  lemma {:induction false} AbsentRun(s: State, acts: seq<Act>, sid: string)
    requires WF(s) && Quiet(s, acts, sid) && Absent(s, sid)
    ensures WF(Run(s, acts)) && Absent(Run(s, acts), sid)
    decreases |acts|
  {
    if acts != [] {
      StepKeepsWF(s, acts[0]);
      AbsentStep(s, acts[0], sid);
      AbsentRun(Step(s, acts[0]), acts[1..], sid);
    }
  }

  /** Reading the id finds nothing. */
  ghost predicate ReadsEmpty(s: State, sid: string) {
    forall expires ::
      var t := Step(s, Read(sid, expires));
      LiveWF(t) && sid in t.live && LiveSession(t, sid).values == [] && LiveSession(t, sid).flashes == map[]
  }

  lemma AbsentReadsEmpty(s: State, sid: string)
    requires WF(s) && Absent(s, sid)
    ensures ReadsEmpty(s, sid)
  {
    forall expires: int
      ensures var t := Step(s, Read(sid, expires));
              LiveWF(t) && sid in t.live && LiveSession(t, sid).values == [] && LiveSession(t, sid).flashes == map[]
    {
      ReadMisses(s, sid, expires);
      MergeOfDead(Copies(s.dbs, sid), s.clock);
    }
  }

  /** Destroyed data does not return: once a live session is destroyed by any of the three ways,
      no database holds it, and after any run in which no old handle writes and the session is
      not started again, reading it yields no values and no flashes. */
  lemma DestroyedDataDoesNotReturn(s: State, how: Act, sid: string, acts: seq<Act>)
    requires WF(s) && sid in s.live
    requires how == Destroying(sid) || how == DestroyAll
             || (how.Fire? && CanFire(s, how.id) && s.timers[how.id].sid == sid)
    requires Quiet(Step(s, how), acts, sid)
    ensures var t := Run(Step(s, how), acts); WF(t) && Absent(t, sid) && ReadsEmpty(t, sid)
  {
    StepKeepsWF(s, how);
    AbsentRun(Step(s, how), acts, sid);
    AbsentReadsEmpty(Run(Step(s, how), acts), sid);
  }

  /** Destroy leaves every other session alone, in memory and in the databases. */
  lemma DestroyLeavesOthers(s: State, sid: string, other: string)
    requires WF(s) && other != sid
    ensures var t := Step(s, Destroying(sid));
            && (other in t.live <==> other in s.live)
            && (other in s.live ==> t.live[other] == s.live[other])
            && t.heap == s.heap && t.timers == s.timers && |t.dbs| == |s.dbs|
            && forall i :: 0 <= i < |s.dbs| ==>
                 (other in t.dbs[i] <==> other in s.dbs[i]) && Loaded(t.dbs[i], other) == Loaded(s.dbs[i], other)
  {
  }

  /** Destroy empties the databases exactly when the session is in memory or was not stored. */
  lemma DestroyReachesDatabasesIff(s: State, sid: string)
    ensures (forall i :: 0 <= i < |s.dbs| ==> sid !in Step(s, Destroying(sid)).dbs[i])
            <==> sid in s.live || forall i :: 0 <= i < |s.dbs| ==> sid !in s.dbs[i]
  {
    if sid !in s.live {
      assert Step(s, Destroying(sid)).dbs == s.dbs;
    }
  }

  /** So a stored session that nobody has read since the process started survives its destroy. */
  lemma DestroyMissesStoredSession(sid: string, c: Remote, table: Table)
    requires Clean(c) && TableWF(table)
    ensures var s := State(0, [], map[], [table[sid := c]], []);
            Fresh(s) && sid in Step(s, Destroying(sid)).dbs[0]
  {
  }

  /** Why old handles must not write: a write through the handle of a destroyed session puts the
      whole session back, and the next read returns it unless its stored time has passed. */
  lemma OldHandleResurrects(s: State, h: nat, w: Write, expires: int)
    requires WF(s) && h < |s.heap| && s.dbs != [] && s.heap[h].sid != "" && Absent(s, s.heap[h].sid)
    ensures var sid, t := s.heap[h].sid, Step(s, Writing(h, w));
            var u := Step(t, Read(sid, expires));
            && LiveWF(u) && sid in u.live
            && LiveSession(u, sid).values == if Expired(s.heap[h].life.time, s.clock) then []
                                            else Erase(Apply(s.heap[h].values, w))
  {
    var sid, t := s.heap[h].sid, Step(s, Writing(h, w));
    StepKeepsWF(s, Writing(h, w));
    ReadMisses(t, sid, expires);
    var c := Remote(Erase(Apply(s.heap[h].values, w)), s.heap[h].life.time);
    assert forall i :: 0 <= i < |t.dbs| ==> Copies(t.dbs, sid)[i] == c;
    if Expired(c.time, s.clock) {
      MergeOfDead(Copies(t.dbs, sid), t.clock);
    } else {
      ApplyKeepsUnique(s.heap[h].values, w);
      MergeOfIdentical(Copies(t.dbs, sid), c, t.clock);
    }
  }
}
