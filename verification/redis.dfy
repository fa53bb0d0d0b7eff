/** The redis backend (sessiondb/redis/database.go:80-99, service/service.go:47-62): a write gets
    a whole-second time to live, and redis forgets the key when it ends. */
module Redis {
  import opened Entries
  import opened Merging
  import opened Databases

  const SECOND := 1_000_000_000

  /** Go's `int(d.Seconds())`: truncation toward zero. */
  function WholeSeconds(ns: int): int {
    if ns >= 0 then ns / SECOND else -((-ns) / SECOND)
  }

  /** A stored value and, if it was written with SETEX, the time at which redis drops it. */
  datatype Slot = Slot(store: Remote, gone: Option<int>)

  type Keys = map<string, Slot>

  function Ttl(time: Time, now: int): int {
    if time == Zero then 0 else WholeSeconds(time.ns - now)
  }

  function RedisSynced(t: Keys, p: Payload, now: int): Keys {
    if p.action == Destroy then t - {p.sid}
    else
      var seconds := Ttl(p.time, now);
      t[p.sid := Slot(Encode(p), if seconds > 0 then Some(now + seconds * SECOND) else None)]
  }

  function RedisLoaded(t: Keys, sid: string, now: int): Remote {
    if sid in t && (t[sid].gone.None? || now < t[sid].gone.value) then t[sid].store else NOTHING
  }

  /** The same database without times to live. */
  function PlainLoaded(t: Table, sid: string): Remote {
    if sid in t then t[sid] else NOTHING
  }

  datatype Timed = Timed(p: Payload, now: int)

  function RedisAll(t: Keys, ws: seq<Timed>): Keys
    decreases |ws|
  {
    if ws == [] then t else RedisAll(RedisSynced(t, ws[0].p, ws[0].now), ws[1..])
  }

  function PlainAll(t: Table, ws: seq<Timed>): Table
    decreases |ws|
  {
    if ws == [] then t else PlainAll(Synced(t, ws[0].p), ws[1..])
  }

  /** A time to live ends no later than the stored expiry and less than a second before it. */
  ghost predicate Bounded(slot: Slot) {
    slot.gone.Some? ==> slot.store.time.At? && slot.gone.value <= slot.store.time.ns < slot.gone.value + 1_000_000_000
  }

  lemma TtlBound(time: Time, now: int)
    ensures var seconds := Ttl(time, now);
            && (seconds > 0 <==> time.At? && now + 1_000_000_000 <= time.ns)
            && (seconds > 0 ==> time.ns - 1_000_000_000 < now + seconds * 1_000_000_000 <= time.ns)
  {
  }

  ghost predicate Tracks(r: Keys, t: Table) {
    && r.Keys == t.Keys
    && forall sid :: sid in r ==> r[sid].store == t[sid] && Bounded(r[sid])
  }

  lemma SyncTracks(r: Keys, t: Table, w: Timed)
    requires Tracks(r, t)
    ensures Tracks(RedisSynced(r, w.p, w.now), Synced(t, w.p))
  {
    TtlBound(w.p.time, w.now);
  }

  lemma {:induction false} SyncsTrack(r: Keys, t: Table, ws: seq<Timed>)
    requires Tracks(r, t)
    ensures Tracks(RedisAll(r, ws), PlainAll(t, ws))
    decreases |ws|
  {
    if ws != [] {
      SyncTracks(r, t, ws[0]);
      SyncsTrack(RedisSynced(r, ws[0].p, ws[0].now), Synced(t, ws[0].p), ws[1..]);
    }
  }

  /** The moments at which redis has dropped a copy whose stored expiry has not passed. */
  predicate InFinalWindow(t: Keys, sid: string, now: int) {
    && sid in t && t[sid].gone.Some? && t[sid].store.time.At?
    && t[sid].gone.value <= now <= t[sid].store.time.ns
  }

  /** Outside its final window a copy loads from redis as from a database that never forgets, up to
      copies that no load can tell from missing ones; inside it the copy reads as missing. */
  lemma LoadsLikePlain(r: Keys, t: Table, sid: string, now: int)
    requires Tracks(r, t)
    ensures var a, b := RedisLoaded(r, sid, now), PlainLoaded(t, sid);
            if InFinalWindow(r, sid, now) then a == NOTHING && !Expired(b.time, now)
            else a == b || (Dead(a, now) && Dead(b, now))
  {
  }

  /** The time to live is invisible except in the last fraction of a second: after any sequence of
      writes and destroys, at any later time and among any other databases, the merged load with
      redis in some position equals the load with a database that never forgets in that position,
      outside a window shorter than a second ending at the stored expiry; inside it the copy
      reads as missing. */
  lemma TtlIsInvisibleOutsideWindow(
    r: Keys, t: Table, ws: seq<Timed>, sid: string, now: int, before: seq<Remote>, after: seq<Remote>)
    requires Tracks(r, t)
    ensures var redis, plain := RedisAll(r, ws), PlainAll(t, ws);
            var a := before + [RedisLoaded(redis, sid, now)] + after;
            var b := before + [PlainLoaded(plain, sid)] + after;
            && (sid in redis ==> Bounded(redis[sid]))
            && (!InFinalWindow(redis, sid, now) ==>
                  Merge(a, now) == Merge(b, now) && FirstTime(a, now) == FirstTime(b, now))
            && (InFinalWindow(redis, sid, now) ==>
                  RedisLoaded(redis, sid, now) == NOTHING && !Expired(PlainLoaded(plain, sid).time, now))
  {
    SyncsTrack(r, t, ws);
    var redis, plain := RedisAll(r, ws), PlainAll(t, ws);
    var a := before + [RedisLoaded(redis, sid, now)] + after;
    var b := before + [PlainLoaded(plain, sid)] + after;
    LoadsLikePlain(redis, plain, sid, now);
    if !InFinalWindow(redis, sid, now) {
      assert SameUnexpired(a, b, now);
      ExpiredIsAbsent(a, b, now);
    }
  }

  /** The redis database, stated against `plain`, the table that the same syncs leave in a database
      without times to live. */
  class Database {
    var keys: Keys
    ghost var plain: Table

    ghost predicate Valid()
      reads this
    {
      Tracks(keys, plain)
    }

    constructor ()
      ensures Valid() && plain == map[]
    {
      keys, plain := map[], map[];
    }

    method Load(sid: string, now: int) returns (r: Remote)
      requires Valid()
      ensures if InFinalWindow(keys, sid, now) then r == NOTHING
              else r == PlainLoaded(plain, sid) || (Dead(r, now) && Dead(PlainLoaded(plain, sid), now))
    {
      LoadsLikePlain(keys, plain, sid, now);
      r := NOTHING;
      if sid in keys {
        var slot := keys[sid];
        if slot.gone.None? || now < slot.gone.value {
          r := slot.store;
        }
      }
    }

    method Sync(p: Payload, now: int)
      requires Valid()
      modifies this
      ensures Valid() && plain == Synced(old(plain), p)
      ensures p.action != Destroy ==>
                p.sid in keys
                && (keys[p.sid].gone.Some? <==> p.time.At? && now + 1_000_000_000 <= p.time.ns)
      ensures forall sid :: sid != p.sid ==>
                (sid in keys <==> sid in old(keys)) && (sid in keys ==> keys[sid] == old(keys)[sid])
    {
      SyncTracks(keys, plain, Timed(p, now));
      TtlBound(p.time, now);
      plain := Synced(plain, p);
      if p.action == Destroy {
        keys := keys - {p.sid};
        return;
      }
      var seconds := 0;
      if p.time != Zero {
        seconds := WholeSeconds(p.time.ns - now);
      }
      if seconds > 0 {
        keys := keys[p.sid := Slot(Encode(p), Some(now + seconds * SECOND))];
      } else {
        keys := keys[p.sid := Slot(Encode(p), None)];
      }
    }
  }
}
