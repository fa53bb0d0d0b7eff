/** The pool of payloads (database.go:92-121) and the loop that hands one payload to every
    database before putting it back (database.go:123-128). */
module PayloadPool {
  import opened Entries
  import opened Merging
  import opened Databases

  const ZERO_PAYLOAD := Payload("", Create, BLANK, [], Zero)

  /** acquireSyncPayload on the pooled payload `p`: the pooled `Value` stays. */
  function Acquired(p: Payload, sid: string, action: Action, values: seq<Entry>, time: Time): Payload {
    Payload(sid, action, p.value, values, time)
  }

  /** releaseSyncPayload: the key and the raw value are blanked, the immutable flag is not. */
  function Released(p: Payload): Payload {
    p.(value := p.value.(key := "", value := Nil))
  }

  ghost predicate Blank(p: Payload) {
    p.value.key == "" && p.value.value == Nil
  }

  /** One use of the pool: take the pooled item `slot` (or a new one when the pool has no such
      item), fill it for a session, set its `Value` (which Clear and Destroy do not do), and later
      give it back. */
  datatype Use =
    | Take(slot: nat, sid: string, action: Action, values: seq<Entry>, time: Time, value: Entry)
    | GiveBack(i: nat)
    | Forget(slot: nat)  // sync.Pool may drop any item

  datatype State = State(pool: seq<Payload>, out: seq<Payload>, sent: seq<Payload>)

  function WithoutItem<T>(s: seq<T>, i: nat): seq<T> {
    if i < |s| then s[..i] + s[i + 1..] else s
  }

  function Step(s: State, u: Use): State {
    match u
    case Take(slot, sid, action, values, time, value) =>
      var p := Acquired(if slot < |s.pool| then s.pool[slot] else ZERO_PAYLOAD, sid, action, values, time);
      var filled := if action in {Clear, Destroy} then p else p.(value := value);
      State(WithoutItem(s.pool, slot), s.out + [filled], s.sent + [filled])
    case GiveBack(i) =>
      if i < |s.out| then State(s.pool + [Released(s.out[i])], WithoutItem(s.out, i), s.sent) else s
    case Forget(slot) => s.(pool := WithoutItem(s.pool, slot))
  }

  function Run(s: State, us: seq<Use>): State
    decreases |us|
  {
    if us == [] then s else Run(Step(s, us[0]), us[1..])
  }

  /** What a database must be able to rely on for the `k`-th payload sent. */
  ghost predicate CarriesOnly(p: Payload, u: Use)
    requires u.Take?
  {
    && p.sid == u.sid && p.action == u.action && p.values == u.values && p.time == u.time
    && (if u.action in {Clear, Destroy} then Blank(p) else p.value == u.value)
  }

  function Takes(us: seq<Use>): seq<Use> {
    if us == [] then [] else (if us[0].Take? then [us[0]] else []) + Takes(us[1..])
  }

  ghost predicate Faithful(s: State, done: seq<Use>) {
    && (forall i :: 0 <= i < |s.pool| ==> Blank(s.pool[i]))
    && |s.sent| == |done|
    && forall i :: 0 <= i < |done| ==> done[i].Take? && CarriesOnly(s.sent[i], done[i])
  }

  lemma UseKeepsFaithful(s: State, u: Use, done: seq<Use>)
    requires Faithful(s, done)
    ensures Faithful(Step(s, u), done + if u.Take? then [u] else [])
  {
  }

  lemma TakesSplit(us: seq<Use>, done: seq<Use>)
    ensures done + Takes(us) == if us == [] then done
                                else (done + if us[0].Take? then [us[0]] else []) + Takes(us[1..])
  {
  }

  /** Over any interleaving of uses by any number of sessions every pooled payload is blank, and
      every payload sent carries its own session's id, action, store and value and nothing else:
      clear and destroy payloads reach the databases with an empty key and a nil value. */
  lemma {:induction false} PoolLeavesNoKeyOrValue(s: State, us: seq<Use>, done: seq<Use>)
    requires Faithful(s, done)
    ensures Faithful(Run(s, us), done + Takes(us))
    decreases |us|
  {
    TakesSplit(us, done);
    if us != [] {
      UseKeepsFaithful(s, us[0], done);
      PoolLeavesNoKeyOrValue(Step(s, us[0]), us[1..], done + if us[0].Take? then [us[0]] else []);
    }
  }

  /** The flag is a residue: a clear or destroy that reuses a payload is sent with the immutable
      flag of the entry that payload last carried, so it "contains nothing" if and only if the
      payload is new or that entry was not immutable. */
  lemma ClearCarriesOldFlag(
    s: State, slot: nat, prior: Payload, sid: string, action: Action, values: seq<Entry>, time: Time)
    requires action in {Clear, Destroy}
    requires slot < |s.pool| ==> s.pool[slot] == Released(prior)
    ensures var r := Step(s, Take(slot, sid, action, values, time, BLANK));
            && |r.sent| == |s.sent| + 1
            && (r.sent[|s.sent|].value == BLANK <==> slot >= |s.pool| || !prior.value.immutable)
  {
  }

  /** A use of the pool that shows it: one session sets an immutable entry, and another session's
      clear is then sent with its flag. */
  lemma FlagReachesAnotherSession(e: Entry, sid: string, other: string)
    requires e.immutable
    ensures var us := [Take(0, sid, Insert, [e], Zero, e), GiveBack(0), Take(0, other, Clear, [], Zero, BLANK)];
            var r := Run(State([], [], []), us);
            |r.sent| == 2 && r.sent[1].sid == other && r.sent[1].value == Entry("", Nil, true)
  {
    var s0 := State([], [], []);
    var us := [Take(0, sid, Insert, [e], Zero, e), GiveBack(0), Take(0, other, Clear, [], Zero, BLANK)];
    var p := Payload(sid, Insert, e, [e], Zero);
    var s1, s2 := State([], [p], [p]), State([Released(p)], [], [p]);
    assert Step(s0, us[0]) == s1;
    assert Step(s1, us[1]) == s2;
    assert us[1..][1..][0] == us[2] && us[1..][1..][1..] == [];
    assert Run(s2, us[1..][1..]) == Run(Step(s2, us[2]), []);
    assert Run(s1, us[1..]) == Run(s2, us[1..][1..]);
  }

  class Pool {
    var items: seq<Payload>

    ghost predicate Valid()
      reads this
    {
      forall i :: 0 <= i < |items| ==> Blank(items[i])
    }

    constructor ()
      ensures Valid()
    {
      items := [];
    }

    method Acquire(sid: string, action: Action, values: seq<Entry>, time: Time) returns (p: Payload)
      requires Valid()
      modifies this`items
      ensures Valid() && Blank(p)
      ensures p == Payload(sid, action, p.value, values, time)
      ensures old(items) == [] ==> items == [] && p.value == BLANK
      ensures old(items) != [] ==>
                exists i :: 0 <= i < |old(items)| && p.value == old(items)[i].value
                            && items == old(items)[..i] + old(items)[i + 1..]
    {
      p := ZERO_PAYLOAD;
      if items != [] {
        var i: nat :| i < |items|;
        p := items[i];
        items := WithoutItem(items, i);
      }
      p := Acquired(p, sid, action, values, time);
    }

    method Release(p: Payload)
      requires Valid()
      modifies this`items
      ensures Valid()
      ensures items == old(items) + [Released(p)]
      ensures items[|old(items)|] == p.(value := Entry("", Nil, p.value.immutable))
    {
      items := items + [Released(p)];
    }
  }

  /** A database registered twice is synchronised twice, to the same effect. */
  lemma SyncTwice(t: Table, p: Payload)
    ensures Synced(Synced(t, p), p) == Synced(t, p)
  {
  }

  ghost function Tables(dbs: seq<Database>): (ts: seq<Table>)
    reads dbs
    ensures |ts| == |dbs| && forall i :: 0 <= i < |dbs| ==> ts[i] == dbs[i].service
  {
    seq(|dbs|, i requires 0 <= i < |dbs| reads dbs => dbs[i].service)
  }

  method SyncDatabases(dbs: seq<Database>, pool: Pool, p: Payload)
    requires pool.Valid()
    modifies dbs`service, pool`items
    ensures pool.Valid()
    ensures Tables(dbs) == SyncedAll(old(Tables(dbs)), p)
    ensures forall i :: 0 <= i < |dbs| ==> dbs[i].service == Synced(old(dbs[i].service), p)
  {
    for i := 0 to |dbs|
      modifies dbs`service
      invariant forall j :: 0 <= j < i ==> dbs[j].service == Synced(old(dbs[j].service), p)
      invariant forall j :: 0 <= j < |dbs| ==>
                              dbs[j].service == old(dbs[j].service)
                              || dbs[j].service == Synced(old(dbs[j].service), p)
    {
      SyncTwice(old(dbs[i].service), p);
      dbs[i].Sync(p);
    }
    pool.Release(p);
  }
}
