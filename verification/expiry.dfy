/** Expiry over whole runs (provider.go:38-57, 136-161, 180-202; lifetime.go:20-48): timers that
    fire at their deadlines, including those left behind by destroyed or replaced sessions. */
module Expiry {
  import opened Entries
  import Merging
  import opened Databases
  import opened Machine

  ghost predicate PendingFor(s: State, sid: string, id: nat) {
    id < |s.timers| && s.timers[id].pending && s.timers[id].sid == sid
  }

  /** Each registered session that has a timer has it pending, for its own id. */
  ghost predicate TimersArmed(s: State) {
    LiveWF(s) && forall sid :: sid in s.live ==> ArmedOn(s, sid)
  }

  ghost predicate ArmedOn(s: State, sid: string)
    requires LiveWF(s) && sid in s.live
  {
    var timer := s.heap[s.live[sid]].life.timer;
    timer.Some? ==> PendingFor(s, sid, timer.value)
  }

  /** No pending timer is overdue. */
  ghost predicate OnTime(s: State) {
    forall id :: 0 <= id < |s.timers| && s.timers[id].pending ==> s.clock <= s.timers[id].deadline
  }

  /** Time does not pass a pending deadline: the timer fires first. */
  ghost predicate Punctual(s: State, a: Act) {
    a.Tick? ==> forall id :: 0 <= id < |s.timers| && s.timers[id].pending ==> s.clock + a.d <= s.timers[id].deadline
  }

  ghost predicate PunctualRun(s: State, acts: seq<Act>)
    decreases |acts|
  {
    acts == [] || (Punctual(s, acts[0]) && PunctualRun(Step(s, acts[0]), acts[1..]))
  }

  /** `d` is the earliest deadline pending for the session id, whoever started the timer. */
  ghost predicate Earliest(s: State, sid: string, d: int) {
    && (exists id: nat :: PendingFor(s, sid, id) && s.timers[id].deadline == d)
    && forall id: nat :: PendingFor(s, sid, id) ==> d <= s.timers[id].deadline
  }

  /** The session's lifetime is the same and timers were only added or reset. */
  lemma ArmedFrame(s: State, t: State, sid: string)
    requires LiveWF(s) && LiveWF(t) && sid in s.live && sid in t.live && ArmedOn(s, sid)
    requires s.heap[s.live[sid]].life == t.heap[t.live[sid]].life
    requires forall id: nat :: PendingFor(s, sid, id) ==> PendingFor(t, sid, id)
    ensures ArmedOn(t, sid)
  {
  }

  lemma InitArms(s: State, id: string, expires: int, sid: string)
    requires LiveWF(s) && (sid in s.live ==> ArmedOn(s, sid))
    ensures var t := Inited(s, id, expires);
            LiveWF(t) && (sid in t.live ==> ArmedOn(t, sid))
  {
    var t := Inited(s, id, expires);
    assert LiveWF(t);
    if id != sid && sid in s.live {
      ArmedFrame(s, t, sid);
    }
  }

  lemma OtherStepArms(s: State, a: Act, sid: string)
    requires LiveWF(s) && (sid in s.live ==> ArmedOn(s, sid)) && !a.Init? && !a.Read? && !a.Start?
    ensures LiveWF(Step(s, a)) && (sid in Step(s, a).live ==> ArmedOn(Step(s, a), sid))
  {
    hide ArmedOn, Collected, Flashed, SyncedAll, TablesWithout, CleanedAll, Apply;
    StepKeepsLive(s, a);
    if sid in Step(s, a).live {
      ArmedFrame(s, Step(s, a), sid);
    }
  }

  lemma ReadArms(s: State, id: string, expires: int, sid: string)
    requires LiveWF(s) && (sid in s.live ==> ArmedOn(s, sid))
    ensures var t := ReadAt(s, id, expires); LiveWF(t) && (sid in t.live ==> ArmedOn(t, sid))
  {
    hide ArmedOn, Collected, Inited;
    if id !in s.live {
      InitArms(s, id, expires, sid);
    } else if sid in s.live {
      ArmedFrame(s, ReadAt(s, id, expires), sid);
    }
  }

  lemma StartArms(s: State, cookie: string, generated: string, expires: int, sid: string)
    requires LiveWF(s) && (sid in s.live ==> ArmedOn(s, sid))
    ensures var t := Started(s, cookie, generated, expires);
            LiveWF(t) && (sid in t.live ==> ArmedOn(t, sid))
  {
    hide ArmedOn, NewSession;
    if cookie != "" {
      ReadArms(s, cookie, expires, sid);
    } else {
      InitArms(s, generated, expires, sid);
      var r, t := Inited(s, generated, expires), Started(s, cookie, generated, expires);
      if sid in t.live {
        ArmedFrame(r, t, sid);
      }
    }
  }

  lemma StepArmsOn(s: State, a: Act, sid: string)
    requires LiveWF(s) && (sid in s.live ==> ArmedOn(s, sid))
    ensures LiveWF(Step(s, a)) && (sid in Step(s, a).live ==> ArmedOn(Step(s, a), sid))
  {
    hide LiveWF, ArmedOn, Inited, ReadAt, Started;
    match a
    case Init(id, e) => InitArms(s, id, e, sid);
    case Read(id, e) => ReadArms(s, id, e, sid);
    case Start(cookie, generated, e) => StartArms(s, cookie, generated, e, sid);
    case _ => OtherStepArms(s, a, sid);
  }

  lemma StepKeepsTimersArmed(s: State, a: Act)
    requires TimersArmed(s)
    ensures TimersArmed(Step(s, a))
  {
    StepKeepsLive(s, a);
    forall sid | sid in Step(s, a).live ensures ArmedOn(Step(s, a), sid) {
      StepArmsOn(s, a, sid);
    }
  }

  lemma StepKeepsOnTime(s: State, a: Act)
    requires OnTime(s) && Punctual(s, a)
    ensures OnTime(Step(s, a)) && s.clock <= Step(s, a).clock
  {
  }

  /** Over every run each registered session's timer stays pending, and if timers fire at their
      deadlines none is ever overdue. */
  lemma {:induction false} LiveSessionsHaveTheirTimers(s: State, acts: seq<Act>)
    requires TimersArmed(s)
    ensures TimersArmed(Run(s, acts))
    ensures OnTime(s) && PunctualRun(s, acts) ==> OnTime(Run(s, acts))
    decreases |acts|
  {
    if acts != [] {
      StepKeepsTimersArmed(s, acts[0]);
      if OnTime(s) && PunctualRun(s, acts) {
        StepKeepsOnTime(s, acts[0]);
      }
      LiveSessionsHaveTheirTimers(Step(s, acts[0]), acts[1..]);
    }
  }

  lemma RunShift(s: State, acts: seq<Act>, i: nat)
    requires i < |acts|
    ensures Run(s, acts[..i + 1]) == Run(Step(s, acts[0]), acts[1..][..i])
  {
    assert acts[..i + 1][1..] == acts[1..][..i];
  }

  // ---------- Only a timer at the earliest deadline ends a session ----------

  predicate EndsExplicitly(a: Act, sid: string) {
    a == Destroying(sid) || a == DestroyAll || a.Restart?
  }

  /** Step `i` of the run is a timer firing that takes the session out of the map at the earliest
      deadline pending for its id. */
  ghost predicate DepartsAt(s: State, acts: seq<Act>, sid: string, i: nat) {
    i < |acts| && acts[i].Fire? &&
    var m := Run(s, acts[..i]);
    sid in m.live && sid !in Step(m, acts[i]).live && Earliest(m, sid, m.clock)
  }

  lemma FireIsEarliest(s: State, a: Act, sid: string)
    requires OnTime(s) && sid in s.live && sid !in Step(s, a).live && !EndsExplicitly(a, sid)
    ensures a.Fire? && Earliest(s, sid, s.clock)
  {
    if a.Fire? {
      assert PendingFor(s, sid, a.id);
    }
  }

  /** A session that was not explicitly destroyed leaves the map only when a timer fires, at the
      earliest deadline then pending for its id. */
  lemma {:induction false} LeavesOnlyAtEarliestDeadline(s: State, acts: seq<Act>, sid: string)
    requires OnTime(s) && PunctualRun(s, acts) && sid in s.live && sid !in Run(s, acts).live
    requires forall i :: 0 <= i < |acts| ==> !EndsExplicitly(acts[i], sid)
    ensures exists i: nat :: DepartsAt(s, acts, sid, i)
    decreases |acts|
  {
    var t := Step(s, acts[0]);
    StepKeepsOnTime(s, acts[0]);
    if sid !in t.live {
      FireIsEarliest(s, acts[0], sid);
      assert acts[..0] == [];
      assert DepartsAt(s, acts, sid, 0);
    } else {
      LeavesOnlyAtEarliestDeadline(t, acts[1..], sid);
      var i: nat :| DepartsAt(t, acts[1..], sid, i);
      RunShift(s, acts, i);
      assert DepartsAt(s, acts, sid, i + 1);
    }
  }

  // ---------- And it does leave then ----------

  /** The action resets this timer, which only a live session that owns it can have done, or
      loses it with the process. */
  ghost predicate Moves(s: State, a: Act, id: nat) {
    || a.Restart?
    || (a.UpdateExpiration? && a.expires > 0 && a.sid in s.live && s.live[a.sid] < |s.heap|
        && s.heap[s.live[a.sid]].life.timer == Some(id))
  }

  ghost predicate Unmoved(s: State, acts: seq<Act>, id: nat)
    decreases |acts|
  {
    acts == [] || (!Moves(s, acts[0], id) && Unmoved(Step(s, acts[0]), acts[1..], id))
  }

  ghost predicate GoneAt(s: State, acts: seq<Act>, sid: string, d: int, i: nat) {
    i <= |acts| && var m := Run(s, acts[..i]); m.clock == d && sid !in m.live
  }

  lemma PendingStays(s: State, a: Act, sid: string, id: nat)
    requires OnTime(s) && PendingFor(s, sid, id) && !Moves(s, a, id)
    ensures var t := Step(s, a);
            if a.Fire? && a.id == id && CanFire(s, id)
            then t.clock == s.timers[id].deadline && sid !in t.live
            else PendingFor(t, sid, id) && t.timers[id].deadline == s.timers[id].deadline
  {
  }

  /** Any timer pending for an id is a deadline for whatever session holds that id, however much
      that session is prolonged, unless it is the session's own timer that is reset: once the clock
      is past the deadline, the id was out of the map exactly then. Nothing that is done to a later
      session moves the timer of an earlier one. */
  lemma {:induction false} LeavesByEveryPendingDeadline(s: State, acts: seq<Act>, sid: string, id: nat)
    requires OnTime(s) && PunctualRun(s, acts) && PendingFor(s, sid, id)
    requires Unmoved(s, acts, id)
    requires Run(s, acts).clock > s.timers[id].deadline
    ensures exists i: nat :: GoneAt(s, acts, sid, s.timers[id].deadline, i)
    decreases |acts|
  {
    var d := s.timers[id].deadline;
    if acts == [] {
      assert false;
    }
    var t := Step(s, acts[0]);
    PendingStays(s, acts[0], sid, id);
    if acts[0].Fire? && acts[0].id == id && CanFire(s, id) {
      assert acts[..1][1..] == [];
      assert Run(s, acts[..1]) == Run(t, []) == t;
      assert GoneAt(s, acts, sid, d, 1);
    } else {
      StepKeepsOnTime(s, acts[0]);
      LeavesByEveryPendingDeadline(t, acts[1..], sid, id);
      var i: nat :| GoneAt(t, acts[1..], sid, d, i);
      if i < |acts| {
        RunShift(s, acts, i);
      }
      assert GoneAt(s, acts, sid, d, i + 1);
    }
  }

  predicate StartsAgain(a: Act, sid: string) {
    match a
    case Init(id, _) => id == sid
    case Start(cookie, generated, _) => cookie == "" && generated == sid
    case _ => false
  }

  ghost predicate NotBefore(s: State, sid: string, d: int) {
    forall id: nat :: PendingFor(s, sid, id) ==> d <= s.timers[id].deadline
  }

  /** The action destroys or replaces the session, or shortens its life to before `d`. */
  predicate Disturbs(s: State, a: Act, sid: string, d: int) {
    || EndsExplicitly(a, sid) || StartsAgain(a, sid)
    || (a.UpdateExpiration? && a.sid == sid && a.expires > 0 && s.clock + a.expires < d)
  }

  ghost predicate Undisturbed(s: State, acts: seq<Act>, sid: string, d: int)
    decreases |acts|
  {
    acts == [] || (!Disturbs(s, acts[0], sid, d) && Undisturbed(Step(s, acts[0]), acts[1..], sid, d))
  }

  /** The other half of "exactly": as long as nobody destroys, replaces or shortens the session, it
      stays in the map at every moment before the earliest deadline pending for its id. */
  lemma {:induction false} StaysUntilEarliestDeadline(s: State, acts: seq<Act>, sid: string, d: int)
    requires TimersArmed(s) && sid in s.live && NotBefore(s, sid, d)
    requires Undisturbed(s, acts, sid, d) && Run(s, acts).clock < d
    ensures sid in Run(s, acts).live
    decreases |acts|
  {
    if acts != [] {
      ClockOnlyGrows(s, acts);
      StepKeepsTimersArmed(s, acts[0]);
      StaysOneStep(s, acts[0], sid, d);
      StaysUntilEarliestDeadline(Step(s, acts[0]), acts[1..], sid, d);
    }
  }

  lemma {:induction false} ClockOnlyGrows(s: State, acts: seq<Act>)
    ensures s.clock <= Run(s, acts).clock
    decreases |acts|
  {
    if acts != [] {
      ClockOnlyGrows(Step(s, acts[0]), acts[1..]);
    }
  }

  lemma StaysOneStep(s: State, a: Act, sid: string, d: int)
    requires TimersArmed(s) && sid in s.live && NotBefore(s, sid, d) && s.clock < d
    requires !Disturbs(s, a, sid, d)
    ensures sid in Step(s, a).live && NotBefore(Step(s, a), sid, d)
  {
    var t := Step(s, a);
    assert forall id: nat :: PendingFor(s, sid, id) ==> !CanFire(s, id);
    forall id: nat | PendingFor(t, sid, id) ensures d <= t.timers[id].deadline {
      if id < |s.timers| && s.timers[id].pending {
        assert PendingFor(s, sid, id);
      }
      if a.UpdateExpiration? && a.sid in s.live {
        assert ArmedOn(s, a.sid);
      }
    }
  }

  /** A due timer fires once: it is no longer pending, the session registered under its id is taken
      out of the map, and out of every database if there was one, and nothing else changes. A timer
      that is not due, or not pending, does nothing. */
  lemma FiredTimer(s: State, id: nat)
    ensures var t := Step(s, Fire(id));
            && t.clock == s.clock && t.heap == s.heap && |t.timers| == |s.timers| && |t.dbs| == |s.dbs|
            && (!(id < |s.timers| && s.timers[id].pending && s.timers[id].deadline <= s.clock) ==> t == s)
            && (t != s ==>
                  var sid := s.timers[id].sid;
                  && t.timers == s.timers[id := Timer(sid, s.timers[id].deadline, false)]
                  && t.live == s.live - {sid}
                  && forall i :: 0 <= i < |s.dbs| ==> t.dbs[i] == if sid in s.live then s.dbs[i] - {sid} else s.dbs[i])
  {
  }

  // ---------- Prolonging ----------

  /** UpdateExpiration gives the timer of a live session a new deadline, the duration from now, and
      sets it going again; it does nothing else, and nothing at all without a positive duration, a
      live session or a timer. */
  lemma ProlongedTimer(s: State, sid: string, expires: int)
    requires LiveWF(s)
    ensures var t := Step(s, UpdateExpiration(sid, expires));
            && t.clock == s.clock && t.heap == s.heap && t.live == s.live && t.dbs == s.dbs
            && |t.timers| == |s.timers|
            && forall id :: 0 <= id < |s.timers| ==>
                 t.timers[id] ==
                   if expires > 0 && sid in s.live && s.heap[s.live[sid]].life.timer == Some(id)
                   then Timer(s.timers[id].sid, s.clock + expires, true)
                   else s.timers[id]
  {
  }

  /** A prolonged session lives exactly as long as it was given. If no other timer pending for its
      id is due earlier, then in every run it stays until that moment as long as nobody destroys,
      replaces or shortens it; and in every run with punctual timers in which it is not prolonged
      again, once the clock is past that moment, the id was out of the map exactly then. */
  lemma ProlongedSessionLeavesOnTime(s: State, sid: string, expires: int, id: nat, acts: seq<Act>)
    requires TimersArmed(s) && OnTime(s) && expires > 0
    requires sid in s.live && s.heap[s.live[sid]].life.timer == Some(id)
    requires forall other: nat :: PendingFor(s, sid, other) && other != id ==>
               s.clock + expires <= s.timers[other].deadline
    ensures var t, d := Step(s, UpdateExpiration(sid, expires)), s.clock + expires;
            && (Undisturbed(t, acts, sid, d) && Run(t, acts).clock < d ==> sid in Run(t, acts).live)
            && (PunctualRun(t, acts) && Unmoved(t, acts, id) && Run(t, acts).clock > d ==>
                  exists i: nat :: GoneAt(t, acts, sid, d, i))
  {
    var a, d := UpdateExpiration(sid, expires), s.clock + expires;
    var t := Step(s, a);
    ProlongedTimer(s, sid, expires);
    StepKeepsTimersArmed(s, a);
    StepKeepsOnTime(s, a);
    assert ArmedOn(s, sid);
    assert PendingFor(t, sid, id) && t.timers[id].deadline == d;
    forall other: nat | PendingFor(t, sid, other) ensures d <= t.timers[other].deadline {
      assert other != id ==> PendingFor(s, sid, other);
    }
    hide Step;
    if Undisturbed(t, acts, sid, d) && Run(t, acts).clock < d {
      StaysUntilEarliestDeadline(t, acts, sid, d);
    }
    if PunctualRun(t, acts) && Unmoved(t, acts, id) && Run(t, acts).clock > d {
      LeavesByEveryPendingDeadline(t, acts, sid, id);
    }
  }

  /** A stale timer in action: the session is destroyed and started again with a longer life, and
      however much that life is prolonged, the timer of the destroyed one ends it early. */
  lemma StaleTimerEndsNewerSession(sid: string, expires: int)
    requires expires > 0
    ensures var s0 := State(0, [], map[], [], []);
            var s1 := Step(s0, Init(sid, 10));
            var s2 := Step(Step(s1, Destroying(sid)), Init(sid, 100));
            var s3 := Step(Step(s2, UpdateExpiration(sid, expires)), Tick(10));
            && sid in s3.live && s3.heap[s3.live[sid]].life.time == Merging.At(100)
            && !Moves(s2, UpdateExpiration(sid, expires), 0)
            && CanFire(s3, 0) && sid !in Step(s3, Fire(0)).live
  {
    var s1 := Step(State(0, [], map[], [], []), Init(sid, 10));
    assert s1.timers == [Timer(sid, 10, true)] && s1.live == map[sid := 0];
    var s2 := Step(Step(s1, Destroying(sid)), Init(sid, 100));
    assert s2.timers == [Timer(sid, 10, true), Timer(sid, 100, true)] && s2.live == map[sid := 1];
    assert |s2.heap| == 2 && s2.heap[1].life == Life(Merging.At(100), Some(1)) && s2.clock == 0;
    hide Inited, NewSession;
  }
}
