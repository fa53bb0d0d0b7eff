/** What requests and writes do, one step at a time, in terms of the state before: which session is
    handed out and with what life (provider.go:38-95, 136-175; sessions.go:144-161), what a write
    leaves in memory and in every database (session.go:263-292, 337-368), and what a restart leaves
    (sessiondb/leveldb/database.go:75-99). */
module Requests {
  import opened Entries
  import opened Merging
  import opened Databases
  import opened Machine
  import opened Agreement
  import opened Recovery

  /** A new session was registered under the id, with what the databases hold for it and with a
      life that comes from there or from the configured duration. Nothing else has changed. */
  ghost predicate Created(s: State, t: State, sid: string, expires: int)
    requires LiveWF(t)
  {
    && |t.heap| == |s.heap| + 1 && t.heap[..|s.heap|] == s.heap
    && t.live == s.live[sid := |s.heap|]
    && t.dbs == s.dbs && t.clock == s.clock
    && (if LiveSession(t, sid).life.timer == None then t.timers == s.timers
        else |t.timers| == |s.timers| + 1 && t.timers[..|s.timers|] == s.timers)
    && LiveSession(t, sid).sid == sid && LiveSession(t, sid).flashes == map[]
    && LiveSession(t, sid).values == Merge(Copies(s.dbs, sid), s.clock)
    && LifeFrom(t, sid, FirstTime(Copies(s.dbs, sid), s.clock), s.clock, expires)
  }

  lemma InitCreates(s: State, sid: string, expires: int)
    requires WF(s)
    ensures var t := Step(s, Init(sid, expires)); WF(t) && Created(s, t, sid, expires) && !LiveSession(t, sid).isNew
  {
    StepKeepsWF(s, Init(sid, expires));
    hide Merge, FirstTime, UniqueKeys, DbsWF, Copies;
  }

  lemma ReadCreates(s: State, sid: string, expires: int)
    requires WF(s) && sid !in s.live
    ensures var t := Step(s, Read(sid, expires)); WF(t) && Created(s, t, sid, expires) && !LiveSession(t, sid).isNew
  {
    InitCreates(s, sid, expires);
    hide NewSession, Merge, FirstTime, LifeFrom, UniqueKeys, DbsWF;
  }

  /** Start creates a session whenever the cookie names none in memory. It is new if and only if
      there was no cookie and the databases hold nothing for the generated id. */
  lemma StartCreates(s: State, cookie: string, generated: string, expires: int)
    requires WF(s) && (cookie == "" || cookie !in s.live)
    ensures var t, sid := Step(s, Start(cookie, generated, expires)), if cookie != "" then cookie else generated;
            && WF(t) && Created(s, t, sid, expires)
            && (LiveSession(t, sid).isNew <==> cookie == "" && Merge(Copies(s.dbs, sid), s.clock) == [])
  {
    StepKeepsWF(s, Start(cookie, generated, expires));
    if cookie != "" {
      ReadCreates(s, cookie, expires);
    } else {
      InitCreates(s, generated, expires);
    }
    hide NewSession, Merge, FirstTime, Copies, UniqueKeys, DbsWF;
  }

  /** A session in memory is handed out as it is, whatever the databases hold and whatever duration
      is configured: only the flash messages that were fetched before are dropped. */
  lemma LiveSessionIsKept(s: State, a: Act, sid: string)
    requires WF(s) && sid in s.live
    requires (a.Read? && a.sid == sid) || (a.Start? && a.cookie == sid != "")
    ensures var t := Step(s, a);
            && WF(t) && t.live == s.live && t.timers == s.timers && t.dbs == s.dbs && t.clock == s.clock
            && |t.heap| == |s.heap| && (forall h :: 0 <= h < |s.heap| && h != s.live[sid] ==> t.heap[h] == s.heap[h])
            && var was, now := LiveSession(s, sid), LiveSession(t, sid);
               && now.sid == sid && now.values == was.values && now.life == was.life && now.isNew == was.isNew
               && (forall k :: k in now.flashes <==> k in was.flashes && !was.flashes[k].shouldRemove)
               && (forall k :: k in now.flashes ==> now.flashes[k] == was.flashes[k])
  {
    StepKeepsWF(s, a);
    hide UniqueKeys, DbsWF;
  }

  /** A write through any handle, live or not: the store is the one after the write, the session
      stays new only if it was and an absent key was deleted, and every database holds the whole
      store with the session's stored time under its id. Nothing else changes, in memory or in
      the databases. */
  lemma WriteReachesEveryDatabase(s: State, h: nat, w: Write)
    requires h < |s.heap|
    ensures var t, was := Step(s, Writing(h, w)), s.heap[h];
            && t.live == s.live && t.timers == s.timers && t.clock == s.clock
            && |t.heap| == |s.heap| && (forall g :: 0 <= g < |s.heap| && g != h ==> t.heap[g] == s.heap[g])
            && t.heap[h].sid == was.sid && t.heap[h].flashes == was.flashes && t.heap[h].life == was.life
            && t.heap[h].values == Apply(was.values, w)
            && (t.heap[h].isNew <==>
                  was.isNew && w.Del? && forall i :: 0 <= i < |was.values| ==> was.values[i].key != w.key)
            && |t.dbs| == |s.dbs|
            && forall i :: 0 <= i < |s.dbs| ==>
                 t.dbs[i] == s.dbs[i][was.sid := Remote(Erase(Apply(was.values, w)), was.life.time)]
  {
    var t := Step(s, Writing(h, w));
    forall i | 0 <= i < |s.dbs|
      ensures t.dbs[i] == s.dbs[i][s.heap[h].sid := Remote(Erase(Apply(s.heap[h].values, w)), s.heap[h].life.time)]
    {
      hide Apply, Erase;
    }
    hide Apply, Erase, SyncedAll;
  }

  /** A restart loses memory. Of the databases, those that clean up lose every expired entry under
      a non-empty id and nothing else; the others lose nothing. */
  lemma RestartLeaves(s: State, cleaned: set<nat>)
    ensures var t := Step(s, Restart(cleaned));
            && t.heap == [] && t.live == map[] && t.timers == [] && t.clock == s.clock && |t.dbs| == |s.dbs|
            && (forall i, id :: 0 <= i < |s.dbs| ==>
                  (id in t.dbs[i] <==>
                     id in s.dbs[i]
                     && !(i in cleaned && id != "" && s.dbs[i][id].time.At? && s.dbs[i][id].time.ns < s.clock)))
            && (forall i, id :: 0 <= i < |s.dbs| && id in t.dbs[i] ==> t.dbs[i][id] == s.dbs[i][id])
  {
  }

  /** Destroying everything destroys what is in memory: an id that only databases hold stays there. */
  lemma DestroyAllReachesLiveIdsOnly(s: State)
    ensures var t := Step(s, DestroyAll);
            && t.live == map[] && t.heap == s.heap && t.timers == s.timers && t.clock == s.clock
            && |t.dbs| == |s.dbs|
            && (forall i, id :: 0 <= i < |s.dbs| ==> (id in t.dbs[i] <==> id in s.dbs[i] && id !in s.live))
            && (forall i, id :: 0 <= i < |s.dbs| && id in t.dbs[i] ==> t.dbs[i][id] == s.dbs[i][id])
  {
  }
}
