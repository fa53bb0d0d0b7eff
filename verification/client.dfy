/** Runs of the engine on real objects: an application that holds on to every session it was ever
    handed and does anything to them, in any order, while timers fire and the process restarts. */
module Clients {
  import opened Entries
  import opened Merging
  import opened Databases
  import opened PayloadPool
  import opened LifeTimes
  import opened Providers
  import opened Agreement
  import Flashes
  import M = Machine

  class Client {
    var provider: Provider
    var held: seq<Session>
    ghost var Repr: set<object>

    /** All objects of the engine are in `Repr`. */
    ghost predicate Owns()
      reads this, provider, held, set h | h in held :: h.values
    {
      && this in Repr && provider in Repr && provider.rt in Repr && provider.pool in Repr
      && (forall d :: d in provider.databases ==> d in Repr)
      && (forall h :: h in held ==> h in Repr && h.values in Repr && h.values.buf in Repr)
    }

    ghost predicate Valid()
      reads this, Repr
    {
      && this in Repr && provider in Repr && (forall h :: h in held ==> h in Repr && h.values in Repr)
      && Owns() && held == provider.handles && provider.Valid()
      && (forall i, j :: 0 <= i < j < |provider.databases| ==> provider.databases[i] != provider.databases[j])
    }

    constructor (now: int)
      ensures Valid() && fresh(Repr) && provider.state == M.State(now, [], map[], [], [])
    {
      var p := new Provider(now);
      provider, held, Repr := p, [], {this, p, p.rt, p.pool};
    }

    // ---------- What handlers do to sessions ----------

    method Write(h: nat, w: Write)
      requires Valid()
      modifies Repr
      ensures Valid() && fresh(Repr - old(Repr))
      ensures provider.state == M.Step(old(provider.state), M.Writing(h, w))
    {
      hide M.Step, Provider.Valid;
      provider.HandlesMatch();
      NoSuchHandle(provider.state, h, w);
      if h < |held| {
        var sess := held[h];
        sess.Perform(w);
        Repr := Repr + {sess.values.buf};
      }
    }

    method Flash(h: nat, f: M.FlashOp)
      requires Valid()
      modifies Repr
      ensures Valid() && fresh(Repr - old(Repr))
      ensures provider.state == M.Step(old(provider.state), M.Flashing(h, f))
    {
      hide M.Step, Provider.Valid;
      provider.HandlesMatch();
      NoSuchFlash(provider.state, h, f);
      if h < |held| {
        var shown := held[h].Handle(f);
      }
    }

    // ---------- Requests ----------

    method Init(sid: string, expires: int)
      requires Valid()
      modifies Repr
      ensures Valid() && fresh(Repr - old(Repr))
      ensures provider.state == M.Step(old(provider.state), M.Init(sid, expires))
    {
      hide M.Step, Provider.Valid;
      var sess := provider.Init(sid, expires);
      held := held + [sess];
      Repr := Repr + {sess, sess.values, sess.values.buf};
    }

    method Read(sid: string, expires: int)
      requires Valid()
      modifies Repr
      ensures Valid() && fresh(Repr - old(Repr))
      ensures provider.state == M.Step(old(provider.state), M.Read(sid, expires))
    {
      hide M.Step, Provider.Valid;
      var known := sid in provider.sessions;
      var sess := provider.Read(sid, expires);
      if !known {
        held := held + [sess];
        Repr := Repr + {sess, sess.values, sess.values.buf};
      }
    }

    method Start(cookie: string, generated: string, expires: int)
      requires Valid()
      modifies Repr
      ensures Valid() && fresh(Repr - old(Repr))
      ensures provider.state == M.Step(old(provider.state), M.Start(cookie, generated, expires))
    {
      hide M.Step, Provider.Valid;
      var known := cookie != "" && cookie in provider.sessions;
      var sess := provider.Start(cookie, generated, expires);
      if !known {
        held := held + [sess];
        Repr := Repr + {sess, sess.values, sess.values.buf};
      }
    }

    // ---------- The rest of the provider ----------

    method Register(table: Table)
      requires Valid() && M.TableWF(table)
      modifies Repr
      ensures Valid() && fresh(Repr - old(Repr))
      ensures provider.state == M.Step(old(provider.state), M.Register(table))
    {
      hide M.Step, Provider.Valid, M.TableWF;
      var db := new Database(table);
      provider.RegisterDatabase(db);
      Repr := Repr + {db};
    }

    method UpdateExpiration(sid: string, expires: int)
      requires Valid()
      modifies Repr
      ensures Valid() && fresh(Repr - old(Repr))
      ensures provider.state == M.Step(old(provider.state), M.UpdateExpiration(sid, expires))
    {
      hide M.Step, Provider.Valid;
      var found := provider.UpdateExpiration(sid, expires);
    }

    method Destroy(sid: string)
      requires Valid()
      modifies Repr
      ensures Valid() && fresh(Repr - old(Repr))
      ensures provider.state == M.Step(old(provider.state), M.Destroying(sid))
    {
      hide M.Step, Provider.Valid, SentDestroy;
      provider.Destroy(sid);
    }

    method DestroyAll()
      requires Valid()
      modifies Repr
      ensures Valid() && fresh(Repr - old(Repr))
      ensures provider.state == M.Step(old(provider.state), M.DestroyAll)
    {
      hide M.Step, Provider.Valid, SentDestroys;
      provider.DestroyAll();
    }

    // ---------- Time ----------

    method Tick(d: nat)
      requires Valid()
      modifies Repr
      ensures Valid() && fresh(Repr - old(Repr))
      ensures provider.state == M.Step(old(provider.state), M.Tick(d))
    {
      hide M.Step, Provider.Valid;
      provider.Tick(d);
    }

    method Fire(timer: nat)
      requires Valid()
      modifies Repr
      ensures Valid() && fresh(Repr - old(Repr))
      ensures provider.state == M.Step(old(provider.state), M.Fire(timer))
    {
      hide M.Step, Provider.Valid, SentDestroy, M.WF, Tables;
      provider.RestMatches();
      NotDue(provider.state, timer);
      var rt := provider.rt;
      if timer < |rt.timers| && rt.timers[timer].pending && rt.timers[timer].deadline <= rt.now {
        provider.Fire(timer);
      }
    }

    // ---------- Restart ----------

    /** The process is started again on the same databases; memory is gone. */
    method Restart(cleaned: set<nat>)
      requires Valid()
      modifies Repr
      ensures Valid() && fresh(Repr - old(Repr))
      ensures provider.state == M.Step(old(provider.state), M.Restart(cleaned))
    {
      hide Provider.Valid;
      provider.RestMatches();
      var p := Reopen(provider.databases, provider.rt.now, cleaned);
      provider, held, Repr := p, [], Repr + {p, p.rt, p.pool};
    }

    // ---------- Runs ----------

    /** One action of the machine, on the objects. */
    method Perform(a: M.Act)
      requires Valid() && M.Admissible(a)
      modifies Repr
      ensures Valid() && fresh(Repr - old(Repr))
      ensures provider.state == M.Step(old(provider.state), a)
    {
      hide Valid, M.Step;
      match a
      case Register(table) => Register(table);
      case Init(sid, expires) => Init(sid, expires);
      case Read(sid, expires) => Read(sid, expires);
      case Start(cookie, generated, expires) => Start(cookie, generated, expires);
      case Writing(h, w) => Write(h, w);
      case Flashing(h, f) => Flash(h, f);
      case UpdateExpiration(sid, expires) => UpdateExpiration(sid, expires);
      case Destroying(sid) => Destroy(sid);
      case DestroyAll => DestroyAll();
      case Tick(d) => Tick(d);
      case Fire(timer) => Fire(timer);
      case Restart(cleaned) => Restart(cleaned);
    }

    /** Any sequence of calls takes the objects through the machine's run. */
    method Serve(acts: seq<M.Act>)
      requires Valid() && forall i :: 0 <= i < |acts| ==> M.Admissible(acts[i])
      modifies Repr
      ensures Valid() && fresh(Repr - old(Repr))
      ensures provider.state == M.Run(old(provider.state), acts)
    {
      hide Valid, M.Step, M.Run;
      ghost var s := provider.state;
      RunNothing(s, acts);
      for i := 0 to |acts|
        invariant Valid() && fresh(Repr - old(Repr))
        invariant provider.state == M.Run(s, acts[..i])
      {
        RunOneMore(s, acts, i);
        Perform(acts[i]);
      }
      assert acts[..|acts|] == acts;
    }

    /** The keys, order and values that a live session's object holds are those that its databases
        would give back. */
    ghost predicate InAgreement()
      reads this, Repr
      requires Valid()
    {
      && M.WF(provider.state)
      && (provider.databases != [] ==>
            forall sid :: sid in provider.sessions && sid != "" ==>
              provider.sessions[sid] in held && StoredAsHeld(provider.sessions[sid]))
    }

    lemma AgreesOnObject(sid: string)
      requires Valid() && M.WF(provider.state) && Agrees(provider.state)
      requires provider.databases != [] && sid in provider.sessions && sid != ""
      ensures provider.sessions[sid] in held && StoredAsHeld(provider.sessions[sid])
    {
      hide M.WF, Merge, Erase;
      var s := provider.state;
      provider.RestMatches();
      provider.RegisteredSession(sid, s.heap, s.live);
      assert AgreesOn(s, sid);
    }

    /** Cache agreement of the objects: any calls that register databases first and write through
        registered sessions leave every live session's object as its databases would restore it. */
    method ServeInAgreement(acts: seq<M.Act>)
      requires Valid() && M.WF(provider.state) && Agrees(provider.state) && GoodRun(provider.state, acts)
      modifies Repr
      ensures Valid() && fresh(Repr - old(Repr))
      ensures provider.state == M.Run(old(provider.state), acts) && Agrees(provider.state) && InAgreement()
    {
      hide Valid, M.WF, M.Run, Agrees, GoodRun, StoredAsHeld;
      GoodIsAdmissible(provider.state, acts);
      CacheAgreement(provider.state, acts);
      Serve(acts);
      forall sid | sid in provider.sessions && sid != "" && provider.databases != []
        ensures provider.sessions[sid] in held && StoredAsHeld(provider.sessions[sid])
      {
        AgreesOnObject(sid);
      }
    }

    ghost predicate StoredAsHeld(sess: Session)
      requires Valid() && sess in held
      reads this, Repr
    {
      var copies := Copies(Tables(provider.databases), sess.sid);
      sess.values.Valid() &&
      ((forall i :: 0 <= i < |copies| ==> !Expired(copies[i].time, provider.rt.now)) ==>
         Merge(copies, provider.rt.now) == Erase(sess.values.Contents()))
    }
  }

  /** Opens the databases, some of which clean up, and registers them with a new provider. */
  method Reopen(dbs: seq<Database>, now: int, cleaned: set<nat>) returns (p: Provider)
    requires forall i, j :: 0 <= i < j < |dbs| ==> dbs[i] != dbs[j]
    requires forall i :: 0 <= i < |dbs| ==> M.TableWF(dbs[i].service)
    modifies dbs`service
    ensures fresh(p) && fresh(p.rt) && fresh(p.pool) && p.Valid() && p.databases == dbs && p.handles == []
    ensures p.state == M.State(now, [], map[], CleanedAll(old(Tables(dbs)), now, cleaned), [])
  {
    hide Provider.Valid;
    p := new Provider(now);
    ghost var after := CleanedAll(Tables(dbs), now, cleaned);
    for i := 0 to |dbs|
      invariant fresh(p) && fresh(p.rt) && fresh(p.pool) && p.Valid() && p.handles == []
      invariant p.databases == dbs[..i] && p.state == M.State(now, [], map[], after[..i], [])
      invariant forall j :: i <= j < |dbs| ==> dbs[j].service == old(dbs[j].service)
    {
      if i in cleaned {
        dbs[i].Cleanup(now);
      }
      assert dbs[i].service == after[i];
      p.RegisterDatabase(dbs[i]);
    }
    assert dbs[..|dbs|] == dbs && after[..|dbs|] == after;
  }

  lemma {:induction false} GoodIsAdmissible(s: M.State, acts: seq<M.Act>)
    requires GoodRun(s, acts)
    ensures forall i :: 0 <= i < |acts| ==> M.Admissible(acts[i])
    decreases |acts|
  {
    hide M.Admissible, M.Step;
    if acts != [] {
      GoodIsAdmissible(M.Step(s, acts[0]), acts[1..]);
      assert forall i :: 1 <= i < |acts| ==> acts[i] == acts[1..][i - 1];
    }
  }

  lemma RunNothing(s: M.State, acts: seq<M.Act>)
    ensures M.Run(s, acts[..0]) == s
  {
  }

  lemma {:induction false} RunOneMore(s: M.State, acts: seq<M.Act>, i: nat)
    requires i < |acts|
    ensures M.Run(s, acts[..i + 1]) == M.Step(M.Run(s, acts[..i]), acts[i])
    decreases i
  {
    hide M.Step;
    if i == 0 {
      assert acts[..1][1..] == [];
      assert M.Run(s, acts[..1]) == M.Run(M.Step(s, acts[0]), []);
    } else {
      assert acts[..i + 1][1..] == acts[1..][..i] && acts[..i][1..] == acts[1..][..i - 1];
      RunOneMore(M.Step(s, acts[0]), acts[1..], i - 1);
    }
  }

  lemma NoSuchHandle(s: M.State, h: nat, w: Write)
    ensures h >= |s.heap| ==> M.Step(s, M.Writing(h, w)) == s
  {
  }

  lemma NoSuchFlash(s: M.State, h: nat, f: M.FlashOp)
    ensures h >= |s.heap| ==> M.Step(s, M.Flashing(h, f)) == s
  {
  }

  lemma NotDue(s: M.State, timer: nat)
    ensures !M.CanFire(s, timer) ==> M.Step(s, M.Fire(timer)) == s
  {
  }
}
