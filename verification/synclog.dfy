/** The stream of payloads one session emits (session.go:263-292, 337-350, 360-368): replaying
    only the actions and their entries rebuilds the full store each payload also carries. */
module SyncLog {
  import opened Entries
  import opened Merging
  import opened Databases

  /** The payload for one write, given the store before it; `left` is the entry a pooled payload
      still holds, which Clear does not overwrite. */
  function Emit(sid: string, time: Time, es: seq<Entry>, w: Write, left: Entry): Payload {
    var after := Apply(es, w);
    match w
    case Put(k, v, imm) =>
      var action := if es == [] then Create else if Has(es, k) then Update else Insert;
      Payload(sid, action, if Has(after, k) then after[IndexOf(after, k)] else left, after, time)
    case Del(k) => Payload(sid, Delete, Entry(k, Nil, false), after, time)
    case Wipe => Payload(sid, Clear, left, after, time)
  }

  function Emissions(sid: string, time: Time, es: seq<Entry>, ws: seq<Write>, lefts: seq<Entry>): (ps: seq<Payload>)
    requires |lefts| == |ws|
    ensures |ps| == |ws|
    decreases |ws|
  {
    if ws == [] then []
    else [Emit(sid, time, es, ws[0], lefts[0])] + Emissions(sid, time, Apply(es, ws[0]), ws[1..], lefts[1..])
  }

  /** A database that keeps its own copy by following the actions alone. */
  function Replay(es: seq<Entry>, p: Payload): seq<Entry> {
    match p.action
    case Create => es + [p.value]
    case Insert => es + [p.value]
    case Update => Replaced(es, p.value)
    case Delete => Filtered(es, p.value.key)
    case Clear => []
    case Destroy => []
  }

  function Replaced(es: seq<Entry>, e: Entry): seq<Entry> {
    seq(|es|, i requires 0 <= i < |es| => if es[i].key == e.key then e else es[i])
  }

  function Filtered(es: seq<Entry>, key: string): seq<Entry> {
    if es == [] then []
    else (if es[0].key == key then [] else [es[0]]) + Filtered(es[1..], key)
  }

  function ReplayAll(es: seq<Entry>, ps: seq<Payload>): seq<Entry>
    decreases |ps|
  {
    if ps == [] then es else ReplayAll(Replay(es, ps[0]), ps[1..])
  }

  lemma {:induction false} FilteredAbsent(es: seq<Entry>, key: string)
    requires !Has(es, key)
    ensures Filtered(es, key) == es
  {
    if es != [] {
      FilteredAbsent(es[1..], key);
    }
  }

  lemma {:induction false} FilteredIsRemoved(es: seq<Entry>, key: string)
    requires UniqueKeys(es)
    ensures Filtered(es, key) == Removed(es, key)
  {
    if es != [] {
      if es[0].key == key {
        assert !Has(es[1..], key);
        FilteredAbsent(es[1..], key);
      } else {
        FilteredIsRemoved(es[1..], key);
        assert Removed(es, key) == [es[0]] + Removed(es[1..], key);
      }
    }
  }

  /** What each payload says happened: the first entry creates the store, a new key is an insert and
      a known one an update, even if the write was refused. It always carries the store after the
      write and the session's stored time. */
  lemma EmittedAction(sid: string, time: Time, es: seq<Entry>, w: Write, left: Entry)
    ensures var p := Emit(sid, time, es, w, left);
            && p.sid == sid && p.time == time && p.values == Apply(es, w) && p.action != Destroy
            && (p.action == Create <==> w.Put? && es == [])
            && (p.action == Insert <==> w.Put? && es != [] && forall i :: 0 <= i < |es| ==> es[i].key != w.key)
            && (p.action == Update <==> w.Put? && exists i :: 0 <= i < |es| && es[i].key == w.key)
            && (p.action == Delete <==> w.Del?) && (p.action == Clear <==> w.Wipe?)
  {
    if w.Put? && Has(es, w.key) {
      assert es[IndexOf(es, w.key)].key == w.key;
    }
  }

  lemma ReplayOne(sid: string, time: Time, es: seq<Entry>, w: Write, left: Entry)
    requires UniqueKeys(es)
    ensures Replay(es, Emit(sid, time, es, w, left)) == Apply(es, w)
  {
    match w
    case Put(k, v, imm) =>
      var after := Apply(es, w);
      var i := IndexOf(es, k);
      IndexOfIs(after, k, i);
      if Has(es, k) {
        assert forall j :: 0 <= j < |es| && j != i ==> es[j].key != k;
        assert Replaced(es, after[i]) == after;
      }
    case Del(k) => FilteredIsRemoved(es, k);
    case Wipe =>
  }

  /** Delta log equals snapshot: after any number of the emitted payloads, replaying their actions
      from the initial store gives the ordered entries, flags included, of the last payload's
      full store and of memory. This covers a `Set` refused on an immutable entry and a `Delete`
      of an absent key, which are emitted like any other write. */
  lemma {:induction false} DeltaLogEqualsSnapshot(
    sid: string, time: Time, es: seq<Entry>, ws: seq<Write>, lefts: seq<Entry>, i: nat)
    requires UniqueKeys(es) && i < |ws| == |lefts|
    ensures var ps := Emissions(sid, time, es, ws, lefts);
            ReplayAll(es, ps[..i + 1]) == ps[i].values == ApplyAll(es, ws[..i + 1])
    decreases |ws|
  {
    var ps := Emissions(sid, time, es, ws, lefts);
    ReplayOne(sid, time, es, ws[0], lefts[0]);
    var next := Apply(es, ws[0]);
    assert ps[..i + 1][1..] == ps[1..][..i];
    assert ws[..i + 1][1..] == ws[1..][..i];
    if i > 0 {
      ApplyKeepsUnique(es, ws[0]);
      DeltaLogEqualsSnapshot(sid, time, next, ws[1..], lefts[1..], i - 1);
    }
  }
}
