/** What travels from a session to the databases (database.go), and the tables of the leveldb
    backend as maps (sessiondb/leveldb/database.go). */
module Databases {
  import opened Entries
  import opened Merging

  datatype Action = Create | Insert | Update | Delete | Clear | Destroy

  /** SyncPayload: `values` and `time` are the whole store and lifetime of the session. */
  datatype Payload = Payload(sid: string, action: Action, value: Entry, values: seq<Entry>, time: Time)

  const BLANK := Entry("", Nil, false)

  /** Serialize followed by DecodeRemoteStore: order, keys, values and expiry survive; the
      immutable flag and the timer do not. */
  function Encode(p: Payload): (r: Remote)
    ensures UniqueKeys(p.values) ==> Clean(r)
    ensures r.time == p.time && |r.values| == |p.values|
    ensures forall i :: 0 <= i < |r.values| ==> r.values[i] == Entry(p.values[i].key, p.values[i].value, false)
  {
    Remote(Erase(p.values), p.time)
  }

  type Table = map<string, Remote>

  /** `Load` skips empty keys, so a session whose id is empty is never found. */
  function Loaded(t: Table, sid: string): Remote {
    if sid != "" && sid in t then t[sid] else NOTHING
  }

  function Synced(t: Table, p: Payload): Table {
    if p.action == Destroy then t - {p.sid} else t[p.sid := Encode(p)]
  }

  function Cleaned(t: Table, now: int): Table {
    map sid | sid in t && (sid == "" || !Expired(t[sid].time, now)) :: t[sid]
  }

  function CleanedAll(ts: seq<Table>, now: int, which: set<nat>): (r: seq<Table>)
    ensures |r| == |ts|
  {
    seq(|ts|, i requires 0 <= i < |ts| => if i in which then Cleaned(ts[i], now) else ts[i])
  }

  function Copies(ts: seq<Table>, sid: string): (r: seq<Remote>)
    ensures |r| == |ts| && forall i :: 0 <= i < |ts| ==> r[i] == Loaded(ts[i], sid)
  {
    seq(|ts|, i requires 0 <= i < |ts| => Loaded(ts[i], sid))
  }

  function SyncedAll(ts: seq<Table>, p: Payload): (r: seq<Table>)
    ensures |r| == |ts| && forall i :: 0 <= i < |ts| ==> r[i] == Synced(ts[i], p)
  {
    seq(|ts|, i requires 0 <= i < |ts| => Synced(ts[i], p))
  }

  /** Deleting expired entries, in any of the databases and at any time, changes nothing that a
      later load returns, although it changes which path the merge loop takes. */
  lemma CleanupIsInvisible(ts: seq<Table>, which: set<nat>, now: int, later: int, sid: string)
    requires now <= later
    ensures var was, kept := Copies(ts, sid), Copies(CleanedAll(ts, now, which), sid);
            Merge(kept, later) == Merge(was, later) && FirstTime(kept, later) == FirstTime(was, later)
  {
    var was, kept := Copies(ts, sid), Copies(CleanedAll(ts, now, which), sid);
    assert forall i :: 0 <= i < |ts| ==> was[i] == kept[i] || (Dead(was[i], later) && Dead(kept[i], later));
    ExpiredIsAbsent(kept, was, later);
  }

  /** The leveldb backend, with its key space as a map. */
  class Database {
    var service: Table

    constructor (service: Table)
      ensures this.service == service
    {
      this.service := service;
    }

    /** Walks the iterator until the session's key turns up. */
    method Load(sid: string) returns (r: Remote)
      ensures r == Loaded(service, sid)
      ensures sid != "" && sid in service ==> r == service[sid]
      ensures sid == "" || sid !in service ==> r == Remote([], Zero)
    {
      r := NOTHING;
      var rest := service.Keys;
      while rest != {}
        invariant rest <= service.Keys && r == NOTHING
        invariant sid in service && sid != "" ==> sid in rest
        decreases rest
      {
        var k :| k in rest;
        rest := rest - {k};
        if |k| > 0 && k == sid {
          r := service[k];
          break;
        }
      }
    }

    method Sync(p: Payload)
      modifies this`service
      ensures service == Synced(old(service), p)
      ensures forall id :: id in service <==>
                if id == p.sid then p.action != Destroy else id in old(service)
      ensures forall id :: id in service && id != p.sid ==> service[id] == old(service)[id]
      ensures p.action != Destroy ==> service[p.sid] == Remote(Erase(p.values), p.time)
    {
      if p.action == Destroy {
        service := service - {p.sid};
        return;
      }
      service := service[p.sid := Encode(p)];
    }

    method Cleanup(now: int)
      modifies this`service
      ensures service == Cleaned(old(service), now)
      ensures forall id :: id in service <==>
                id in old(service) && (id == "" || !(old(service)[id].time.At? && old(service)[id].time.ns < now))
      ensures forall id :: id in service ==> service[id] == old(service)[id]
    {
      var rest := service.Keys;
      while rest != {}
        invariant rest <= old(service).Keys
        invariant service.Keys <= old(service).Keys
        invariant forall k :: k in rest ==> k in service
        invariant forall k :: k in service ==> service[k] == old(service)[k]
        invariant forall k :: k in old(service) && k !in rest ==>
                                (k in service <==> k == "" || !Expired(old(service)[k].time, now))
        decreases rest
      {
        var k :| k in rest;
        rest := rest - {k};
        if |k| > 0 {
          var storeDB := service[k];
          if Expired(storeDB.time, now) {
            service := service - {k};
          }
        }
      }
    }
  }
}
