/** provider.go and the methods of session.go on real objects. The provider carries, as ghost
    fields, the machine state it stands for and the payloads it has sent; every method is shown
    to take exactly the machine's step, so every statement about runs of the machine is about
    sequences of these calls. */
module Providers {
  import opened Entries
  import opened Merging
  import opened Databases
  import opened PayloadPool
  import opened MemStore
  import opened LifeTimes
  import SyncLog
  import Flashes
  import OrderedMaps
  import M = Machine

  class Session {
    const sid: string
    const provider: Provider
    const values: Store
    ghost const id: nat
    var isNew: bool
    var flashes: map<string, M.Flash>
    var life: M.Life

    constructor (sid: string, provider: Provider, values: Store, life: M.Life, ghost id: nat)
      ensures this.sid == sid && this.provider == provider && this.values == values && this.id == id
      ensures !isNew && flashes == map[] && this.life == life
    {
      this.sid, this.provider, this.values, this.id := sid, provider, values, id;
      isNew, flashes, this.life := false, map[], life;
    }

    /** The object holds what `m` says. */
    ghost predicate Shows(m: M.Session)
      reads this, values, values.buf
    {
      values.Valid() && m == M.Session(sid, isNew, values.Contents(), flashes, life)
    }

    ghost predicate InProvider()
      reads this, provider
    {
      id < |provider.handles| && provider.handles[id] == this
    }

    // ---------- Values ----------

    method SaveHere(key: string, value: Value, immutable: bool, ghost m: M.Session)
      returns (isFirst: bool, entry: Entry, added: bool)
      requires Shows(m)
      modifies this`isNew, values, values.buf
      ensures values.buf == old(values.buf) || fresh(values.buf)
      ensures Shows(m.(values := Saved(m.values, key, value, immutable), isNew := false))
      ensures isFirst <==> m.values == []
      ensures added <==> !Has(m.values, key)
      ensures var es := Saved(m.values, key, value, immutable); Has(es, key) && entry == es[IndexOf(es, key)]
    {
      hide OrderedMaps.View, OrderedMaps.Stored, UniqueKeys, Saved, IndexOf, Has, Store.Valid, Store.Contents;
      var n := values.Len();
      isFirst := n == 0;
      entry, added := values.Save(key, value, immutable);
      isNew := false;
    }

    /** The part of set that runs under the session's lock (session.go:266-271). */
    method SaveLocked(
      key: string, value: Value, immutable: bool, ghost heap: seq<M.Session>, ghost live: map<string, nat>)
      returns (isFirst: bool, entry: Entry, added: bool)
      requires provider.Linked(heap, live) && InProvider()
      modifies this`isNew, values, values.buf
      ensures id < |heap| && provider.Linked(M.Mutated(heap, id, Put(key, value, immutable)), live)
      ensures Shows(M.Mutated(heap, id, Put(key, value, immutable))[id])
      ensures values.buf == old(values.buf) || fresh(values.buf)
      ensures forall h :: h in provider.handles && h != this ==> h.values.buf == old(h.values.buf)
      ensures isFirst <==> heap[id].values == []
      ensures added <==> !Has(heap[id].values, key)
      ensures var es := Apply(heap[id].values, Put(key, value, immutable));
              Has(es, key) && entry == es[IndexOf(es, key)]
    {
      hide UniqueKeys, Saved, IndexOf, Has, Shows, Store.Valid, Store.Contents, Provider.Registered;
      isFirst, entry, added := SaveHere(key, value, immutable, heap[id]);
      ghost var after := M.Mutated(heap, id, Put(key, value, immutable));
      forall i | 0 <= i < |after| ensures provider.handles[i].Shows(after[i]) {
        assert i != id ==> old(provider.handles[i].Shows(heap[i]));
      }
    }

    /** The part of Delete that runs under the session's lock (session.go:338-343). */
    method RemoveLocked(key: string, ghost heap: seq<M.Session>, ghost live: map<string, nat>) returns (removed: bool)
      requires provider.Linked(heap, live) && InProvider()
      modifies this`isNew, values, values.buf
      ensures id < |heap| && provider.Linked(M.Mutated(heap, id, Del(key)), live)
      ensures Shows(M.Mutated(heap, id, Del(key))[id]) && values.buf == old(values.buf)
      ensures forall h :: h in provider.handles && h != this ==> h.values.buf == old(h.values.buf)
      ensures removed <==> Has(heap[id].values, key)
    {
      hide OrderedMaps.View, OrderedMaps.Dropped, UniqueKeys, Removed, IndexOf, Has;
      hide Store.Valid, Store.Contents, Provider.Registered;
      assert Shows(heap[id]);
      removed := values.Remove(key);
      if removed {
        isNew := false;
      }
      ghost var after := M.Mutated(heap, id, Del(key));
      forall i | 0 <= i < |after| ensures provider.handles[i].Shows(after[i]) {
        assert i != id ==> old(provider.handles[i].Shows(heap[i]));
      }
    }

    /** The part of Clear that runs under the session's lock (session.go:361-364). */
    method ResetLocked(ghost heap: seq<M.Session>, ghost live: map<string, nat>)
      requires provider.Linked(heap, live) && InProvider()
      modifies this`isNew, values
      ensures id < |heap| && provider.Linked(M.Mutated(heap, id, Wipe), live)
      ensures Shows(M.Mutated(heap, id, Wipe)[id]) && values.buf == old(values.buf)
      ensures forall h :: h in provider.handles && h != this ==> h.values.buf == old(h.values.buf)
    {
      hide UniqueKeys, Store.Valid, Store.Contents, Provider.Registered;
      assert Shows(heap[id]);
      values.Reset();
      isNew := false;
      ghost var after := M.Mutated(heap, id, Wipe);
      forall i | 0 <= i < |after| ensures provider.handles[i].Shows(after[i]) {
        assert i != id ==> old(provider.handles[i].Shows(heap[i]));
      }
    }

    /** set (session.go:263-292): mutate, then send the whole store to every database. */
    method SetValue(key: string, value: Value, immutable: bool)
      requires provider.Valid() && InProvider()
      modifies this`isNew, values, values.buf
      modifies provider`state, provider`log, provider.databases`service, provider.pool`items
      ensures provider.Valid() && (values.buf == old(values.buf) || fresh(values.buf))
      ensures forall h :: h in provider.handles && h != this ==> h.values.buf == old(h.values.buf)
      ensures provider.state == M.Step(old(provider.state), M.Writing(id, Put(key, value, immutable)))
      ensures Sent(old(provider.log), provider.log, old(provider.state).heap, id, Put(key, value, immutable))
    {
      hide Provider.Linked, Pool.Valid, Store.Valid, Store.Contents, Tables, SyncedAll;
      hide Apply, IndexOf, Has, M.Step, M.Mutated, M.WF;
      ghost var s, w := provider.state, Put(key, value, immutable);
      var action := Create;
      var isFirst, entry, added := SaveLocked(key, value, immutable, s.heap, s.live);
      if !isFirst {
        if added {
          action := Insert;
        } else {
          action := Update;
        }
      }
      var slice := values.Slice();
      var p := provider.pool.Acquire(sid, action, slice, life.time);
      ghost var left := p.value;
      p := p.(value := entry);
      WroteIs(s, id, w, p);
      provider.Publish(p, M.Mutated(s.heap, id, w), s.live);
      EmitsPut(s.heap, id, w, p, left);
    }

    /** Delete (session.go:337-350). */
    method Delete(key: string) returns (removed: bool)
      requires provider.Valid() && InProvider()
      modifies this`isNew, values, values.buf
      modifies provider`state, provider`log, provider.databases`service, provider.pool`items
      ensures provider.Valid() && values.buf == old(values.buf)
      ensures forall h :: h in provider.handles && h != this ==> h.values.buf == old(h.values.buf)
      ensures provider.state == M.Step(old(provider.state), M.Writing(id, Del(key)))
      ensures Sent(old(provider.log), provider.log, old(provider.state).heap, id, Del(key))
      ensures id < |old(provider.state).heap| && (removed <==> Has(old(provider.state).heap[id].values, key))
    {
      hide Provider.Linked, Pool.Valid, Store.Valid, Store.Contents, Tables, SyncedAll;
      hide Apply, IndexOf, Has, M.Step, M.WF;
      ghost var s, w := provider.state, Del(key);
      removed := RemoveLocked(key, s.heap, s.live);
      var slice := values.Slice();
      var p := provider.pool.Acquire(sid, Action.Delete, slice, life.time);
      ghost var left := p.value;
      p := p.(value := Entry(key, Nil, false));
      WroteIs(s, id, w, p);
      provider.Publish(p, M.Mutated(s.heap, id, w), s.live);
      assert p == SyncLog.Emit(s.heap[id].sid, s.heap[id].life.time, s.heap[id].values, w, left);
    }

    /** Clear (session.go:360-368): the pooled payload's entry is sent as it is. */
    method Clear()
      requires provider.Valid() && InProvider()
      modifies this`isNew, values, provider`state, provider`log, provider.databases`service, provider.pool`items
      ensures provider.Valid() && values.buf == old(values.buf)
      ensures forall h :: h in provider.handles && h != this ==> h.values.buf == old(h.values.buf)
      ensures provider.state == M.Step(old(provider.state), M.Writing(id, Wipe))
      ensures Sent(old(provider.log), provider.log, old(provider.state).heap, id, Wipe)
    {
      hide Provider.Linked, Pool.Valid, Apply, SyncedAll, Store.Valid, Store.Contents, M.Step, M.WF, Tables;
      ghost var s, w := provider.state, Wipe;
      ResetLocked(s.heap, s.live);
      var slice := values.Slice();
      var p := provider.pool.Acquire(sid, Action.Clear, slice, life.time);
      ghost var left := p.value;
      WroteIs(s, id, w, p);
      provider.Publish(p, M.Mutated(s.heap, id, w), s.live);
      assert p == SyncLog.Emit(s.heap[id].sid, s.heap[id].life.time, s.heap[id].values, w, left);
    }

    /** A handler writes to the session. */
    method Perform(w: Write)
      requires provider.Valid() && InProvider()
      modifies this`isNew, values, values.buf
      modifies provider`state, provider`log, provider.databases`service, provider.pool`items
      ensures provider.Valid() && (values.buf == old(values.buf) || fresh(values.buf))
      ensures forall h :: h in provider.handles && h != this ==> h.values.buf == old(h.values.buf)
      ensures provider.state == M.Step(old(provider.state), M.Writing(id, w))
      ensures Sent(old(provider.log), provider.log, old(provider.state).heap, id, w)
    {
      hide *;
      match w
      case Put(k, v, imm) => SetValue(k, v, imm);
      case Del(k) => var removed := Delete(k);
      case Wipe => Clear();
    }

    // ---------- Flash messages ----------

    /** runFlashGC: the walk over the map that deletes what is marked. */
    method RunFlashGC()
      modifies this`flashes
      ensures flashes == M.Collected(old(flashes))
    {
      var rest := flashes.Keys;
      while rest != {}
        invariant rest <= old(flashes).Keys && flashes.Keys <= old(flashes).Keys
        invariant forall k :: k in rest ==> k in flashes
        invariant forall k :: k in flashes ==> flashes[k] == old(flashes)[k]
        invariant forall k :: k in old(flashes) && k !in rest ==> (k in flashes <==> !old(flashes)[k].shouldRemove)
        decreases rest
      {
        var k :| k in rest;
        rest := rest - {k};
        if flashes[k].shouldRemove {
          flashes := flashes - {k};
        }
      }
    }

    method HasFlash() returns (b: bool)
      ensures b <==> exists k :: Flashes.PhaseOf(flashes, k) != Flashes.Gone
    {
      b := |flashes| > 0;
      if flashes.Keys != {} {
        var k :| k in flashes;
        assert Flashes.PhaseOf(flashes, k) != Flashes.Gone;
      }
    }

    method SetFlash(key: string, value: Value)
      modifies this`flashes
      ensures flashes == M.Flashed(old(flashes), M.SetFlash(key, value))
    {
      flashes := flashes[key := M.Flash(value, false)];
    }

    method GetFlash(key: string) returns (value: Value)
      modifies this`flashes
      ensures value == Flashes.Shown(Flashes.PhaseOf(old(flashes), key))
      ensures flashes == M.Flashed(old(flashes), M.GetFlash(key))
    {
      if key !in flashes {
        return Nil;
      }
      flashes := flashes[key := flashes[key].(shouldRemove := true)];
      value := flashes[key].value;
    }

    method PeekFlash(key: string) returns (value: Value)
      ensures value == Flashes.Shown(Flashes.PhaseOf(flashes, key))
    {
      value := if key in flashes then flashes[key].value else Nil;
    }

    method GetFlashes() returns (all: map<string, Value>)
      modifies this`flashes
      ensures all.Keys == old(flashes).Keys
      ensures forall k :: k in all ==> all[k] == Flashes.Shown(Flashes.PhaseOf(old(flashes), k))
      ensures flashes == M.Flashed(old(flashes), M.GetFlashes)
    {
      all := map[];
      var rest := flashes.Keys;
      while rest != {}
        invariant flashes.Keys == old(flashes).Keys && rest + all.Keys == old(flashes).Keys && rest !! all.Keys
        invariant forall k :: k in all ==> all[k] == old(flashes)[k].value
        invariant forall k :: k in flashes ==>
                    flashes[k] == if k in rest then old(flashes)[k] else old(flashes)[k].(shouldRemove := true)
        decreases rest
      {
        var k :| k in rest;
        rest := rest - {k};
        all := all[k := flashes[k].value];
        flashes := flashes[k := flashes[k].(shouldRemove := true)];
      }
    }

    method DeleteFlash(key: string)
      modifies this`flashes
      ensures flashes == M.Flashed(old(flashes), M.DeleteFlash(key))
    {
      flashes := flashes - {key};
    }

    method ClearFlashes()
      modifies this`flashes
      ensures flashes == M.Flashed(old(flashes), M.ClearFlashes)
    {
      var rest := flashes.Keys;
      while rest != {}
        invariant flashes.Keys == rest
        decreases rest
      {
        var k :| k in rest;
        rest := rest - {k};
        flashes := flashes - {k};
      }
    }

    /** What a handler is shown by a flash method. */
    method Dispatch(op: M.FlashOp) returns (shown: Value)
      modifies this`flashes
      ensures flashes == M.Flashed(old(flashes), op)
      ensures op.GetFlash? || op.PeekFlash? ==> shown == Flashes.Shown(Flashes.PhaseOf(old(flashes), op.key))
    {
      shown := Nil;
      match op
      case SetFlash(k, v) => SetFlash(k, v);
      case GetFlash(k) => shown := GetFlash(k);
      case PeekFlash(k) => shown := PeekFlash(k);
      case GetFlashes => var all := GetFlashes();
      case DeleteFlash(k) => DeleteFlash(k);
      case ClearFlashes => ClearFlashes();
    }

    method DispatchLinked(op: M.FlashOp, ghost heap: seq<M.Session>, ghost live: map<string, nat>)
      returns (shown: Value)
      requires provider.Linked(heap, live) && InProvider()
      modifies this`flashes
      ensures id < |heap| && provider.Linked(heap[id := heap[id].(flashes := M.Flashed(heap[id].flashes, op))], live)
      ensures op.GetFlash? || op.PeekFlash? ==> shown == Flashes.Shown(Flashes.PhaseOf(heap[id].flashes, op.key))
    {
      hide UniqueKeys, Store.Valid, Store.Contents, Provider.Registered, M.Flashed;
      assert Shows(heap[id]);
      shown := Dispatch(op);
      ghost var after := heap[id := heap[id].(flashes := M.Flashed(heap[id].flashes, op))];
      forall i | 0 <= i < |after| ensures provider.handles[i].Shows(after[i]) {
        assert i != id ==> old(provider.handles[i].Shows(heap[i]));
      }
    }

    /** A handler calls a flash method on a session of the provider. */
    method Handle(op: M.FlashOp) returns (shown: Value)
      requires provider.Valid() && InProvider()
      modifies this`flashes, provider`state
      ensures provider.Valid()
      ensures provider.state == M.Step(old(provider.state), M.Flashing(id, op))
      ensures op.GetFlash? || op.PeekFlash? ==> shown == Flashes.Shown(Flashes.FlashIn(old(provider.state), id, op.key))
    {
      hide Provider.Linked, M.WF, Tables, Pool.Valid, M.Flashed;
      ghost var s := provider.state;
      M.StepKeepsWF(s, M.Flashing(id, op));
      shown := DispatchLinked(op, s.heap, s.live);
      provider.state := M.Step(s, M.Flashing(id, op));
    }
  }

  /** The step of a write, in terms of the payload that was delivered. */
  lemma WroteIs(s: M.State, h: nat, w: Write, p: Payload)
    requires M.WF(s) && h < |s.heap| && p.action != Destroy
    requires var m := M.Mutated(s.heap, h, w)[h]; p.sid == m.sid && p.time == m.life.time && p.values == m.values
    ensures var t := M.Step(s, M.Writing(h, w));
            && M.WF(t) && t == s.(heap := M.Mutated(s.heap, h, w), dbs := SyncedAll(s.dbs, p))
            && p.sid == s.heap[h].sid && p.time == s.heap[h].life.time && p.values == Apply(s.heap[h].values, w)
  {
    var t := M.Step(s, M.Writing(h, w));
    var q := M.Snapshot(t.heap[h], Update, BLANK);
    assert Encode(p) == Encode(q);
    assert SyncedAll(s.dbs, p) == SyncedAll(s.dbs, q);
    M.StepKeepsWF(s, M.Writing(h, w));
  }

  /** Exactly one payload was sent: the one the delta log prescribes for the write, where the
      entry left in a pooled payload has no key and no value. */
  ghost predicate Sent(before: seq<Payload>, after: seq<Payload>, heap: seq<M.Session>, h: nat, w: Write) {
    h < |heap| && exists left: Entry ::
      && left.key == "" && left.value == Nil
      && after == before + [SyncLog.Emit(heap[h].sid, heap[h].life.time, heap[h].values, w, left)]
  }

  lemma EmitsPut(heap: seq<M.Session>, h: nat, w: Write, p: Payload, left: Entry)
    requires h < |heap| && w.Put?
    requires var m, es := heap[h], Apply(heap[h].values, w);
             && Has(es, w.key)
             && p == Payload(m.sid, if m.values == [] then Create else if Has(m.values, w.key) then Update else Insert,
                             es[IndexOf(es, w.key)], es, m.life.time)
    ensures p == SyncLog.Emit(heap[h].sid, heap[h].life.time, heap[h].values, w, left)
  {
  }

  class Provider {
    var sessions: map<string, Session>
    var databases: seq<Database>
    const rt: Runtime
    const pool: Pool
    ghost var handles: seq<Session>
    ghost var state: M.State
    ghost var log: seq<Payload>

    /** Each session knows its place, and no two share a store or a buffer. */
    ghost predicate Separate()
      reads this`handles, handles, set h | h in handles :: h.values
    {
      && (forall i :: 0 <= i < |handles| ==> handles[i].provider == this && handles[i].id == i)
      && (forall i, j :: 0 <= i < j < |handles| ==>
            handles[i].values != handles[j].values && handles[i].values.buf != handles[j].values.buf)
    }

    ghost predicate Shown(heap: seq<M.Session>)
      reads this`handles, handles, set h | h in handles :: h.values, set h | h in handles :: h.values.buf
    {
      |handles| == |heap| && forall i :: 0 <= i < |handles| ==> handles[i].Shows(heap[i])
    }

    ghost predicate Registered(live: map<string, nat>)
      reads this`sessions, this`handles
    {
      && sessions.Keys == live.Keys
      && forall sid :: sid in sessions ==>
           live[sid] < |handles| && sessions[sid] == handles[live[sid]] && sessions[sid].sid == sid
    }

    /** Sessions, and the map that registers them, are as the arguments say. */
    ghost predicate Linked(heap: seq<M.Session>, live: map<string, nat>)
      reads this`sessions, this`handles, handles,
            set h | h in handles :: h.values, set h | h in handles :: h.values.buf
    {
      Separate() && Shown(heap) && Registered(live)
    }

    ghost predicate Valid()
      reads this, rt, pool, databases, handles,
            set h | h in handles :: h.values, set h | h in handles :: h.values.buf
    {
      && pool.Valid() && Linked(state.heap, state.live)
      && state.clock == rt.now && state.timers == rt.timers && state.dbs == Tables(databases)
      && M.WF(state)
    }

    lemma RegisteredSession(sid: string, heap: seq<M.Session>, live: map<string, nat>)
      requires Linked(heap, live) && sid in sessions
      ensures sid in live && sessions[sid].sid == sid && sessions[sid].provider == this
      ensures sessions[sid].id == live[sid] < |heap| == |handles| && handles[live[sid]] == sessions[sid]
      ensures sessions[sid].Shows(heap[live[sid]])
    {
    }

    /** The handles are those of the machine, in its order. */
    lemma HandlesMatch()
      requires Valid()
      ensures |state.heap| == |handles|
      ensures forall i :: 0 <= i < |handles| ==> handles[i].provider == this && handles[i].id == i
      ensures forall h :: h in handles ==> h.provider == this && h.InProvider()
    {
      hide M.WF, Tables, Pool.Valid, Session.Shows;
    }

    /** The clock, the timers, the databases and the registered ids are those of the machine. */
    lemma RestMatches()
      requires Valid()
      ensures state.clock == rt.now && state.timers == rt.timers && state.dbs == Tables(databases)
      ensures state.live.Keys == sessions.Keys && M.WF(state)
      ensures forall sid :: sid in sessions ==> sessions[sid] in handles
    {
      hide M.WF, Tables, Pool.Valid, Session.Shows;
    }

    lemma SameKeys(heap: seq<M.Session>, live: map<string, nat>)
      requires Linked(heap, live)
      ensures sessions.Keys == live.Keys
    {
    }

    constructor (now: int)
      ensures Valid() && fresh(rt) && fresh(pool) && databases == [] && handles == []
      ensures state == M.State(now, [], map[], [], []) && log == []
    {
      sessions, databases, handles, log := map[], [], [], [];
      rt := new Runtime(now);
      pool := new Pool();
      state := M.State(now, [], map[], [], []);
    }

    method RegisterDatabase(db: Database)
      requires Valid() && M.TableWF(db.service)
      modifies this`databases, this`state
      ensures Valid() && databases == old(databases) + [db]
      ensures state == M.Step(old(state), M.Register(db.service))
    {
      hide Linked, Pool.Valid, M.WF;
      M.StepKeepsWF(state, M.Register(db.service));
      state := M.Step(state, M.Register(db.service));
      databases := databases + [db];
      assert Tables(databases) == state.dbs;
    }

    /** syncDatabases for a payload of this provider, once memory is as `heap` and `live` say. */
    method Publish(p: Payload, ghost heap: seq<M.Session>, ghost live: map<string, nat>)
      requires pool.Valid() && Linked(heap, live)
      requires state.clock == rt.now && state.timers == rt.timers && state.dbs == Tables(databases)
      requires M.WF(state.(heap := heap, live := live, dbs := SyncedAll(state.dbs, p)))
      modifies this`state, this`log, databases`service, pool`items
      ensures Valid() && log == old(log) + [p]
      ensures state == old(state).(heap := heap, live := live, dbs := SyncedAll(old(state).dbs, p))
    {
      hide Linked, Pool.Valid, SyncedAll, M.WF, Tables;
      ghost var s := state;
      SyncDatabases(databases, pool, p);
      state := s.(heap := heap, live := live, dbs := SyncedAll(s.dbs, p));
      log := log + [p];
    }

    // ---------- Creating sessions ----------

    /** loadSessionFromDB (provider.go:97-133), with its firstValidIdx shortcut. */
    method LoadSessionFromDB(sid: string) returns (store: Store, time: Time)
      requires forall i :: 0 <= i < |databases| ==> M.TableWF(databases[i].service)
      ensures fresh(store) && store.Valid() && fresh(store.buf)
      ensures store.Contents() == Merge(Copies(Tables(databases), sid), rt.now)
      ensures time == FirstTime(Copies(Tables(databases), sid), rt.now)
    {
      hide Store.Valid, Store.Contents, Merge, FirstTime, CountExpired, Overlay, UniqueKeys, Flagless;
      store := new Store();
      time := Zero;
      var firstValidIdx := 1;
      ghost var copies := Copies(Tables(databases), sid);
      var n := |databases|;
      StartOfLoop(copies, rt.now);
      for i := 0 to n
        invariant fresh(store) && store.Valid() && fresh(store.buf)
        invariant store.Contents() == Merge(copies[..i], rt.now)
        invariant time == FirstTime(copies[..i], rt.now)
        invariant firstValidIdx == 1 + CountExpired(copies[..i], rt.now)
      {
        var storeDB := databases[i].Load(sid);
        LoadedIsClean(databases[i].service, sid);
        NextInLoop(copies, rt.now, i);
        if Expired(storeDB.time, rt.now) {
          firstValidIdx := firstValidIdx + 1;
        } else {
          if time == Zero {
            time := storeDB.time;
          }
          if n == firstValidIdx {
            store := new Store.Decoded(storeDB.values);
          } else {
            VisitInto(store, storeDB.values);
          }
        }
      }
      assert copies[..n] == copies;
    }

    /** newSession (provider.go:38-95). */
    method NewSession(sid: string, expires: int) returns (sess: Session)
      requires Valid()
      modifies rt`timers
      ensures fresh(sess) && fresh(sess.values) && fresh(sess.values.buf)
      ensures sess.provider == this && sess.id == |handles| && sess.sid == sid
      ensures sess.Shows(M.NewSession(state, sid, expires).0)
      ensures rt.timers == M.NewSession(state, sid, expires).1
    {
      hide Store.Valid, Store.Contents, Merge, FirstTime, Copies, Tables, Linked, UniqueKeys;
      var values, time := LoadSessionFromDB(sid);
      var lifetime := new LifeTime(time, None);
      if time != Zero {
        lifetime.Revive(rt, sid);
      } else {
        lifetime.Begin(rt, expires, sid);
      }
      sess := new Session(sid, this, values, M.Life(lifetime.time, lifetime.timer), |handles|);
    }

    /** p.sessions[sid] = sess, for a session that shares nothing with the others. */
    method Enlist(sess: Session, ghost heap: seq<M.Session>, ghost live: map<string, nat>, ghost m: M.Session)
      requires Linked(heap, live) && sess.Shows(m) && sess.provider == this && sess.id == |handles|
      requires forall i :: 0 <= i < |handles| ==>
                 handles[i].values != sess.values && handles[i].values.buf != sess.values.buf
      modifies this`sessions, this`handles
      ensures Linked(heap + [m], live[sess.sid := |heap|])
      ensures handles == old(handles) + [sess] && sessions == old(sessions)[sess.sid := sess]
    {
      hide Session.Shows;
      sessions := sessions[sess.sid := sess];
      handles := handles + [sess];
      forall i | 0 <= i < |handles| ensures handles[i].Shows((heap + [m])[i]) {
        assert i < |heap| ==> old(handles[i].Shows(heap[i]));
      }
    }

    method Init(sid: string, expires: int) returns (sess: Session)
      requires Valid()
      modifies this`sessions, this`handles, this`state, rt`timers
      ensures Valid() && state == M.Step(old(state), M.Init(sid, expires))
      ensures fresh(sess) && fresh(sess.values) && fresh(sess.values.buf)
      ensures sid in sessions && sess == sessions[sid]
      ensures sess.provider == this && sess.id == |old(handles)| && handles == old(handles) + [sess]
    {
      hide Session.Shows, Pool.Valid, Tables, M.NewSession, M.WF;
      ghost var s := state;
      sess := NewSession(sid, expires);
      assert Linked(s.heap, s.live);
      Enlist(sess, s.heap, s.live, M.NewSession(s, sid, expires).0);
      M.StepKeepsWF(s, M.Init(sid, expires));
      state := M.Step(s, M.Init(sid, expires));
    }

    // ---------- Requests ----------

    /** The flash collection inside Read (provider.go:167). */
    method Collect(sess: Session, ghost heap: seq<M.Session>, ghost live: map<string, nat>)
      requires Linked(heap, live) && sess.id < |handles| && handles[sess.id] == sess
      modifies sess`flashes
      ensures sess.id < |heap|
      ensures Linked(heap[sess.id := heap[sess.id].(flashes := M.Collected(heap[sess.id].flashes))], live)
    {
      hide UniqueKeys, Store.Valid, Store.Contents, Registered, M.Collected;
      assert sess.Shows(heap[sess.id]);
      sess.RunFlashGC();
      ghost var after := heap[sess.id := heap[sess.id].(flashes := M.Collected(heap[sess.id].flashes))];
      forall i | 0 <= i < |after| ensures handles[i].Shows(after[i]) {
        assert i != sess.id ==> old(handles[i].Shows(heap[i]));
      }
    }

    method Read(sid: string, expires: int) returns (sess: Session)
      requires Valid()
      modifies this`sessions, this`handles, this`state, rt`timers, handles`flashes
      ensures Valid() && state == M.Step(old(state), M.Read(sid, expires))
      ensures sid in sessions && sess == sessions[sid]
      ensures sid in old(sessions) ==> handles == old(handles) && sess == old(sessions)[sid]
      ensures sid !in old(sessions) ==>
                handles == old(handles) + [sess] && fresh(sess) && fresh(sess.values) && fresh(sess.values.buf)
    {
      hide Linked, Session.Shows, Pool.Valid, Tables, M.NewSession, M.WF, M.Collected;
      ghost var s := state;
      M.StepKeepsWF(s, M.Read(sid, expires));
      assert sid in sessions <==> sid in s.live by { SameKeys(s.heap, s.live); }
      if sid in sessions {
        RegisteredSession(sid, s.heap, s.live);
        sess := sessions[sid];
        Collect(sess, s.heap, s.live);
        state := M.Step(s, M.Read(sid, expires));
        return;
      }
      sess := Init(sid, expires);
    }

    /** sess.isNew = sess.values.Len() == 0 (sessions.go:151) */
    method MarkNew(sess: Session, ghost heap: seq<M.Session>, ghost live: map<string, nat>)
      requires Linked(heap, live) && sess.id < |handles| && handles[sess.id] == sess
      modifies sess`isNew
      ensures sess.id < |heap| && Linked(heap[sess.id := heap[sess.id].(isNew := heap[sess.id].values == [])], live)
    {
      hide UniqueKeys, Store.Valid, Store.Contents, Registered;
      assert sess.Shows(heap[sess.id]);
      var n := sess.values.Len();
      sess.isNew := n == 0;
      ghost var after := heap[sess.id := heap[sess.id].(isNew := heap[sess.id].values == [])];
      forall i | 0 <= i < |after| ensures handles[i].Shows(after[i]) {
        assert i != sess.id ==> old(handles[i].Shows(heap[i]));
      }
    }

    /** Sessions.Start (sessions.go:144-161) on the decoded cookie value. */
    method Start(cookie: string, generated: string, expires: int) returns (sess: Session)
      requires Valid()
      modifies this`sessions, this`handles, this`state, rt`timers, handles`flashes
      ensures Valid() && state == M.Step(old(state), M.Start(cookie, generated, expires))
      ensures var sid := if cookie != "" then cookie else generated; sid in sessions && sess == sessions[sid]
      ensures cookie != "" && cookie in old(sessions) ==> handles == old(handles) && sess == old(sessions)[cookie]
      ensures cookie == "" || cookie !in old(sessions) ==>
                handles == old(handles) + [sess] && fresh(sess) && fresh(sess.values) && fresh(sess.values.buf)
    {
      hide Linked, Session.Shows, Pool.Valid, Tables, M.NewSession, M.WF, M.Collected;
      ghost var s, a := state, M.Start(cookie, generated, expires);
      M.StepKeepsWF(s, a);
      if cookie != "" {
        sess := Read(cookie, expires);
        return;
      }
      sess := Init(generated, expires);
      RegisteredSession(generated, state.heap, state.live);
      MarkNew(sess, state.heap, state.live);
      state := M.Step(s, a);
    }

    method UpdateExpiration(sid: string, expires: int) returns (found: bool)
      requires Valid()
      modifies this`state, rt`timers
      ensures Valid() && state == M.Step(old(state), M.UpdateExpiration(sid, expires))
      ensures found <==> expires > 0 && sid in sessions
      ensures var was := old(rt.timers);
              if found && sessions[sid].life.timer.Some? && sessions[sid].life.timer.value < |was|
              then
                var id := sessions[sid].life.timer.value;
                rt.timers == was[id := M.Timer(was[id].sid, rt.now + expires, true)]
              else rt.timers == was
    {
      hide Linked, Pool.Valid, Tables, M.WF, Store.Valid, Store.Contents;
      ghost var s := state;
      M.StepKeepsWF(s, M.UpdateExpiration(sid, expires));
      assert sid in sessions <==> sid in s.live by { SameKeys(s.heap, s.live); }
      if expires <= 0 || sid !in sessions {
        return false;
      }
      RegisteredSession(sid, s.heap, s.live);
      var sess := sessions[sid];
      var lifetime := new LifeTime(sess.life.time, sess.life.timer);
      lifetime.Shift(rt, expires);
      state := M.Step(s, M.UpdateExpiration(sid, expires));
      found := true;
    }

    // ---------- Ending sessions ----------

    /** delete(p.sessions, sid) */
    method Delist(sid: string, ghost heap: seq<M.Session>, ghost live: map<string, nat>)
      requires Linked(heap, live)
      modifies this`sessions
      ensures sessions == old(sessions) - {sid} && Linked(heap, live - {sid})
    {
      hide Separate, Shown;
      sessions := sessions - {sid};
    }

    /** deleteSession (provider.go:199-202): the timer keeps running. */
    method DeleteSession(sess: Session)
      requires Valid() && sess.sid in sessions && sessions[sess.sid] == sess
      modifies this`sessions, this`state, this`log, databases`service, pool`items
      ensures Valid() && state == M.Destroyed(old(state), sess.sid) && sessions == old(sessions) - {sess.sid}
      ensures SentDestroy(old(log), log, sess.sid)
    {
      hide SyncedAll, Tables, M.WF, Linked, Pool.Valid, Store.Valid, Store.Contents;
      ghost var s := state;
      RegisteredSession(sess.sid, s.heap, s.live);
      Delist(sess.sid, s.heap, s.live);
      var slice := sess.values.Slice();
      var p := pool.Acquire(sess.sid, Action.Destroy, slice, sess.life.time);
      DestroyedIs(s, p);
      Publish(p, s.heap, s.live - {sess.sid});
    }

    method Destroy(sid: string)
      requires Valid()
      modifies this`sessions, this`state, this`log, databases`service, pool`items
      ensures Valid() && state == M.Step(old(state), M.Destroying(sid))
      ensures sid in old(sessions) ==> SentDestroy(old(log), log, sid)
      ensures sid !in old(sessions) ==> log == old(log)
      ensures sessions == old(sessions) - {sid}
    {
      hide Linked, M.WF, Tables, Pool.Valid;
      SameKeys(state.heap, state.live);
      if sid in sessions {
        RegisteredSession(sid, state.heap, state.live);
        DeleteSession(sessions[sid]);
      }
    }

    /** How far DestroyAll has come: the sessions in `gone` have been destroyed and reported. */
    ghost predicate Ending(s: M.State, before: seq<Payload>, gone: set<string>)
      reads this`sessions, this`state, this`log
    {
      sessions.Keys == s.live.Keys - gone && state == Ended(s, gone) && SentDestroys(before, log, gone)
    }

    /** One round of DestroyAll. */
    method DestroyNext(sid: string, ghost s: M.State, ghost before: seq<Payload>, ghost gone: set<string>)
      requires Valid() && Ending(s, before, gone) && sid in s.live && sid !in gone
      modifies this`sessions, this`state, this`log, databases`service, pool`items
      ensures Valid() && Ending(s, before, gone + {sid})
    {
      hide Linked, M.WF, Tables, Pool.Valid, Ended, M.Destroyed, SentDestroys, SentDestroy;
      RegisteredSession(sid, state.heap, state.live);
      EndedOneMore(s, gone, sid);
      ghost var sent := log;
      DeleteSession(sessions[sid]);
      SentOneMore(before, sent, log, gone, sid);
    }

    lemma EndingNone()
      requires Valid()
      ensures Ending(state, log, {}) && state.live.Keys == sessions.Keys
    {
      hide M.WF, Tables, Pool.Valid;
      SameKeys(state.heap, state.live);
      EndedNone(state);
      SentNone(log);
    }

    /** Walks the map that it empties. */
    method DestroyAll()
      requires Valid()
      modifies this`sessions, this`state, this`log, databases`service, pool`items
      ensures Valid() && state == M.Step(old(state), M.DestroyAll)
      ensures SentDestroys(old(log), log, old(sessions).Keys)
    {
      hide *;
      EndingNone();
      EndedAll(state);
      ghost var s, before, gone := state, log, {};
      var rest := sessions.Keys;
      while rest != {}
        invariant Valid() && Ending(s, before, gone) && databases == old(databases)
        invariant gone !! rest && gone + rest == s.live.Keys
        decreases rest
      {
        var sid :| sid in rest;
        DestroyNext(sid, s, before, gone);
        rest, gone := rest - {sid}, gone + {sid};
      }
      EndingAll(s, before);
    }

    lemma EndingAll(s: M.State, before: seq<Payload>)
      requires Ending(s, before, s.live.Keys)
      ensures state == Ended(s, s.live.Keys) && SentDestroys(before, log, s.live.Keys)
    {
    }

    /** The runtime runs the function of a timer that is due: Destroy of its session id. */
    method Fire(timer: nat)
      requires Valid() && timer < |rt.timers| && rt.timers[timer].pending && rt.timers[timer].deadline <= rt.now
      modifies this`sessions, this`state, this`log, databases`service, pool`items, rt`timers
      ensures Valid() && state == M.Step(old(state), M.Fire(timer))
      ensures old(rt.timers)[timer].sid in old(sessions) ==> SentDestroy(old(log), log, old(rt.timers)[timer].sid)
      ensures old(rt.timers)[timer].sid !in old(sessions) ==> log == old(log)
    {
      hide Linked, Tables, Pool.Valid;
      var sid := rt.timers[timer].sid;
      rt.timers := rt.timers[timer := rt.timers[timer].(pending := false)];
      state := state.(timers := rt.timers);
      Destroy(sid);
    }

    method Tick(d: nat)
      requires Valid()
      modifies this`state, rt`now
      ensures Valid() && state == M.Step(old(state), M.Tick(d))
      ensures rt.now == old(rt.now) + d
    {
      hide Linked, Tables, Pool.Valid;
      rt.now := rt.now + d;
      state := M.Step(state, M.Tick(d));
    }
  }

  /** Exactly one payload was sent: a destroy for the session that carries no key and no value. */
  ghost predicate SentDestroy(before: seq<Payload>, after: seq<Payload>, sid: string) {
    && |after| == |before| + 1 && after[..|before|] == before
    && var p := after[|before|]; p.action == Destroy && p.sid == sid && Blank(p)
  }

  function SidsOf(ps: seq<Payload>): set<string> {
    if ps == [] then {} else SidsOf(ps[..|ps| - 1]) + {ps[|ps| - 1].sid}
  }

  /** Exactly one payload was sent for each of the sessions, a blank destroy, and nothing else. */
  ghost predicate SentDestroys(before: seq<Payload>, after: seq<Payload>, sids: set<string>) {
    before <= after &&
    var sent := after[|before|..];
    && |sent| == |sids| && SidsOf(sent) == sids
    && forall k :: 0 <= k < |sent| ==> sent[k].action == Destroy && Blank(sent[k])
  }

  lemma SentNone(before: seq<Payload>)
    ensures SentDestroys(before, before, {})
  {
  }

  lemma SentOneMore(before: seq<Payload>, sent: seq<Payload>, after: seq<Payload>, sids: set<string>, sid: string)
    requires SentDestroys(before, sent, sids) && SentDestroy(sent, after, sid) && sid !in sids
    ensures SentDestroys(before, after, sids + {sid})
  {
    var p := after[|sent|];
    assert after == sent + [p];
    assert after[|before|..] == sent[|before|..] + [p];
    assert (sent[|before|..] + [p])[..|sent| - |before|] == sent[|before|..];
  }

  lemma DestroyedIs(s: M.State, p: Payload)
    requires M.WF(s) && p.action == Destroy && p.sid in s.live
    ensures var t := s.(live := s.live - {p.sid}, dbs := SyncedAll(s.dbs, p));
            t == M.Destroyed(s, p.sid) && M.WF(t)
  {
    assert SyncedAll(s.dbs, p) == M.TablesWithout(s.dbs, {p.sid});
    M.StepKeepsWF(s, M.Destroying(p.sid));
  }

  /** `s` after the sessions in `gone` have been destroyed. */
  ghost function Ended(s: M.State, gone: set<string>): M.State {
    s.(live := s.live - gone, dbs := M.TablesWithout(s.dbs, gone))
  }

  lemma EndedNone(s: M.State)
    ensures Ended(s, {}) == s
  {
    var t := Ended(s, {});
    assert t.live == s.live;
    assert forall i :: 0 <= i < |s.dbs| ==> t.dbs[i] == s.dbs[i];
    assert t.dbs == s.dbs;
  }

  lemma EndedOneMore(s: M.State, gone: set<string>, sid: string)
    requires sid in s.live && sid !in gone
    ensures M.Destroyed(Ended(s, gone), sid) == Ended(s, gone + {sid})
  {
    var t, u := M.Destroyed(Ended(s, gone), sid), Ended(s, gone + {sid});
    assert t.live == u.live;
    assert forall i :: 0 <= i < |s.dbs| ==> t.dbs[i] == u.dbs[i];
    assert t.dbs == u.dbs;
  }

  lemma EndedAll(s: M.State)
    ensures Ended(s, s.live.Keys) == M.Step(s, M.DestroyAll)
  {
    assert s.live - s.live.Keys == map[];
  }

  lemma LoadedIsClean(t: Table, sid: string)
    requires M.TableWF(t)
    ensures Clean(Loaded(t, sid))
  {
  }

  lemma StartOfLoop(copies: seq<Remote>, now: int)
    ensures Merge(copies[..0], now) == [] && FirstTime(copies[..0], now) == Zero && CountExpired(copies[..0], now) == 0
  {
  }

  /** One round of the loop over the databases: what the next copy adds, and that the shortcut may
      be taken when the code takes it. */
  lemma NextInLoop(copies: seq<Remote>, now: int, i: nat)
    requires i < |copies| && Clean(copies[i])
    ensures var done, next, c := copies[..i], copies[..i + 1], copies[i];
            && Merge(next, now)
               == (if Expired(c.time, now) then Merge(done, now) else Overlay(Merge(done, now), c.values))
            && FirstTime(next, now) == (if FirstTime(done, now) != Zero then FirstTime(done, now)
                                        else if Expired(c.time, now) then Zero else c.time)
            && CountExpired(next, now) == CountExpired(done, now) + (if Expired(c.time, now) then 1 else 0)
            && (!Expired(c.time, now) && |copies| == 1 + CountExpired(done, now) ==> Merge(next, now) == c.values)
            && UniqueKeys(c.values)
  {
    assert copies[..i + 1][..i] == copies[..i];
    FirstTimeSnoc(copies[..i + 1], now);
    if !Expired(copies[i].time, now) {
      ShortcutTakenExactlyAtLast(copies, now, i);
      ShortcutEqualsVisit(copies[i].values);
    }
  }

  /** storeDB.Values.Visit(func(key, value) { store.Set(key, value) }) */
  method VisitInto(store: Store, values: seq<Entry>)
    requires store.Valid()
    modifies store, store.buf
    ensures store.Valid() && (store.buf == old(store.buf) || fresh(store.buf))
    ensures store.Contents() == Overlay(old(store.Contents()), values)
  {
    hide Store.Valid, Store.Contents, Saved, OrderedMaps.View, OrderedMaps.Stored, IndexOf, Has;
    ghost var base := store.Contents();
    for i := 0 to |values|
      invariant store.Valid() && (store.buf == old(store.buf) || fresh(store.buf))
      invariant store.Contents() == Overlay(base, values[..i])
    {
      assert values[..i + 1][..i] == values[..i];
      var entry, added := store.Save(values[i].key, values[i].value, false);
    }
    assert values[..|values|] == values;
  }
}
