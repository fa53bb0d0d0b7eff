/** What loadSessionFromDB (provider.go:97-133) makes of the copies that the registered
    databases hold for one session. */
module Merging {
  import opened Entries
  import opened OrderedMaps

  /** `time.Time`: the zero time, or nanoseconds on one clock. */
  datatype Time = Zero | At(ns: int)

  predicate Expired(t: Time, now: int) {
    t.At? && t.ns < now
  }

  /** A decoded RemoteStore: only the values and the expiry time survive the encoding. */
  datatype Remote = Remote(values: seq<Entry>, time: Time)

  /** What `Load` returns when a database has nothing for the session. */
  const NOTHING := Remote([], Zero)

  ghost predicate Clean(c: Remote) {
    UniqueKeys(c.values) && Flagless(c.values)
  }

  /** Visiting `copy` and calling `Set` on `base` for every pair. */
  function Overlay(base: seq<Entry>, copy: seq<Entry>): seq<Entry> {
    if copy == [] then base
    else
      var last := copy[|copy| - 1];
      Saved(Overlay(base, copy[..|copy| - 1]), last.key, last.value, false)
  }

  /** The in-order fold of the copies that have not expired. */
  function Merge(copies: seq<Remote>, now: int): seq<Entry> {
    if copies == [] then []
    else
      var before, last := Merge(copies[..|copies| - 1], now), copies[|copies| - 1];
      if Expired(last.time, now) then before else Overlay(before, last.values)
  }

  /** The first non-zero expiry time among the copies that have not expired. */
  function FirstTime(copies: seq<Remote>, now: int): Time {
    if copies == [] then Zero
    else if Expired(copies[0].time, now) || copies[0].time == Zero then FirstTime(copies[1..], now)
    else copies[0].time
  }

  // ---------- Overlay ----------

  lemma {:induction false} OverlayKeeps(base: seq<Entry>, copy: seq<Entry>)
    requires UniqueKeys(base) && Flagless(base)
    ensures UniqueKeys(Overlay(base, copy)) && Flagless(Overlay(base, copy))
  {
    if copy != [] {
      OverlayKeeps(base, copy[..|copy| - 1]);
    }
  }

  lemma {:induction false} OverlayOntoNothing(c: seq<Entry>)
    requires UniqueKeys(c) && Flagless(c)
    ensures Overlay([], c) == c
  {
    if c != [] {
      var before, last := c[..|c| - 1], c[|c| - 1];
      OverlayOntoNothing(before);
      assert IndexOf(before, last.key) == |before|;
      assert c == before + [last];
    }
  }

  lemma {:induction false} OverlayOntoItself(c: seq<Entry>, i: nat)
    requires UniqueKeys(c) && Flagless(c) && i <= |c|
    ensures Overlay(c, c[..i]) == c
  {
    hide IndexOf;
    if i > 0 {
      assert c[..i][..i - 1] == c[..i - 1];
      OverlayOntoItself(c, i - 1);
      IndexOfUnique(c, i - 1);
      assert c[i - 1 := Entry(c[i - 1].key, c[i - 1].value, false)] == c;
    }
  }

  /** The shortcut `store = storeDB.Values` equals the general path on a store exactly when its
      keys are unique and none of its entries is flagged immutable. */
  lemma ShortcutEqualsVisit(c: seq<Entry>)
    ensures Overlay([], c) == c <==> UniqueKeys(c) && Flagless(c)
  {
    if UniqueKeys(c) && Flagless(c) {
      OverlayOntoNothing(c);
    }
    OverlayKeeps([], c);
  }

  // ---------- The merge ----------

  lemma {:induction false} MergeKeeps(copies: seq<Remote>, now: int)
    ensures UniqueKeys(Merge(copies, now)) && Flagless(Merge(copies, now))
  {
    if copies != [] {
      MergeKeeps(copies[..|copies| - 1], now);
      OverlayKeeps(Merge(copies[..|copies| - 1], now), copies[|copies| - 1].values);
    }
  }

  /** Merging any positive number of identical copies is the identity. */
  lemma {:induction false} MergeOfIdentical(copies: seq<Remote>, c: Remote, now: int)
    requires copies != [] && Clean(c) && !Expired(c.time, now)
    requires forall i :: 0 <= i < |copies| ==> copies[i] == c
    ensures Merge(copies, now) == c.values && FirstTime(copies, now) == c.time
  {
    hide Overlay, UniqueKeys, Flagless;
    var n := |copies| - 1;
    assert c.values[..|c.values|] == c.values;
    OverlayOntoNothing(c.values);
    OverlayOntoItself(c.values, |c.values|);
    if n == 0 {
      assert Merge(copies[..0], now) == [];
    } else {
      MergeOfIdentical(copies[..n], c, now);
      if c.time == Zero {
        MergeOfIdentical(copies[1..], c, now);
      }
    }
  }

  /** The value of `key` in the last unexpired copy that has it. */
  function LastWins(copies: seq<Remote>, now: int, key: string): Option<Value> {
    if copies == [] then None
    else
      var c := copies[|copies| - 1];
      if !Expired(c.time, now) && Has(c.values, key) then Some(c.values[IndexOf(c.values, key)].value)
      else LastWins(copies[..|copies| - 1], now, key)
  }

  function KeyStream(copies: seq<Remote>, now: int): seq<string> {
    if copies == [] then []
    else
      var before, c := KeyStream(copies[..|copies| - 1], now), copies[|copies| - 1];
      if Expired(c.time, now) then before else before + Keys(c.values)
  }

  /** A sequence without its repetitions, each element where it first appeared. */
  function FirstSeen(ks: seq<string>): seq<string> {
    if ks == [] then []
    else
      var before, k := FirstSeen(ks[..|ks| - 1]), ks[|ks| - 1];
      if k in before then before else before + [k]
  }

  function Lookup(es: seq<Entry>, key: string): Option<Value> {
    if Has(es, key) then Some(es[IndexOf(es, key)].value) else None
  }

  lemma {:induction false} OverlayLookup(base: seq<Entry>, copy: seq<Entry>, key: string)
    requires UniqueKeys(base) && Flagless(base) && UniqueKeys(copy)
    ensures Lookup(Overlay(base, copy), key) == if Has(copy, key) then Lookup(copy, key) else Lookup(base, key)
  {
    hide Saved;
    if copy != [] {
      var n := |copy| - 1;
      var before, last := copy[..n], copy[n];
      OverlayLookup(base, before, key);
      OverlayKeeps(base, before);
      SavedAt(Overlay(base, before), last.key, last.value, false, key);
      if key == last.key {
        IndexOfUnique(copy, n);
      } else if Has(before, key) {
        IndexOfIs(copy, key, IndexOf(before, key));
      } else if Has(copy, key) {
        IndexOfIs(before, key, IndexOf(copy, key));
      }
    }
  }

  lemma KeyIn(es: seq<Entry>, key: string)
    ensures key in Keys(es) <==> Has(es, key)
  {
    if Has(es, key) {
      assert Keys(es)[IndexOf(es, key)] == key;
    }
  }

  lemma SavedKeys(es: seq<Entry>, key: string, value: Value)
    ensures Keys(Saved(es, key, value, false)) == if key in Keys(es) then Keys(es) else Keys(es) + [key]
  {
    KeyIn(es, key);
  }

  lemma {:induction false} OverlayOrder(base: seq<Entry>, stream: seq<string>, copy: seq<Entry>)
    requires Keys(base) == FirstSeen(stream)
    ensures Keys(Overlay(base, copy)) == FirstSeen(stream + Keys(copy))
  {
    hide Saved;
    if copy == [] {
      assert stream + Keys(copy) == stream;
    } else {
      var n := |copy| - 1;
      var whole := stream + Keys(copy);
      OverlayOrder(base, stream, copy[..n]);
      assert whole[..|whole| - 1] == stream + Keys(copy[..n]);
      SavedKeys(Overlay(base, copy[..n]), copy[n].key, copy[n].value);
    }
  }

  /** The result of the merge, said without the fold: a key is there exactly when an unexpired
      copy has it, its value is that of the last such copy, and keys are ordered by their first
      appearance in the unexpired copies read in registration order. */
  lemma {:induction false} MergeIsLastWins(copies: seq<Remote>, now: int, key: string)
    requires forall i :: 0 <= i < |copies| ==> Clean(copies[i])
    ensures Lookup(Merge(copies, now), key) == LastWins(copies, now, key)
    ensures Keys(Merge(copies, now)) == FirstSeen(KeyStream(copies, now))
  {
    if copies != [] {
      var n := |copies| - 1;
      MergeIsLastWins(copies[..n], now, key);
      MergeKeeps(copies[..n], now);
      if !Expired(copies[n].time, now) {
        OverlayLookup(Merge(copies[..n], now), copies[n].values, key);
        OverlayOrder(Merge(copies[..n], now), KeyStream(copies[..n], now), copies[n].values);
      }
    }
  }

  // ---------- The documented rule: the first non-empty load ----------

  /** What database.go:20-21 says a session is loaded from: the first copy that is not expired and
      not empty. */
  function FirstLoad(copies: seq<Remote>, now: int): seq<Entry> {
    if copies == [] then []
    else
      var before, c := FirstLoad(copies[..|copies| - 1], now), copies[|copies| - 1];
      if before != [] || Expired(c.time, now) then before else c.values
  }

  /** Copy `j` is the last unexpired one that has the key. */
  ghost predicate HasLastWord(copies: seq<Remote>, now: int, j: nat, key: string) {
    && j < |copies| && !Expired(copies[j].time, now) && Has(copies[j].values, key)
    && forall k :: j < k < |copies| ==> Expired(copies[k].time, now) || !Has(copies[k].values, key)
  }

  lemma {:induction false} LastWinsIsLastWord(copies: seq<Remote>, now: int, key: string)
    ensures LastWins(copies, now, key).Some? ==> exists j: nat :: HasLastWord(copies, now, j, key)
    ensures forall j: nat :: HasLastWord(copies, now, j, key) ==>
              LastWins(copies, now, key) == Lookup(copies[j].values, key)
  {
    if copies != [] {
      var n := |copies| - 1;
      var before, c := copies[..n], copies[n];
      LastWinsIsLastWord(before, now, key);
      if !Expired(c.time, now) && Has(c.values, key) {
        assert HasLastWord(copies, now, n, key);
      } else {
        forall j: nat | HasLastWord(copies, now, j, key) ensures HasLastWord(before, now, j, key) {
        }
        if LastWins(before, now, key).Some? {
          var j: nat :| HasLastWord(before, now, j, key);
          assert HasLastWord(copies, now, j, key);
        }
      }
    }
  }

  lemma {:induction false} OverlayExtends(base: seq<Entry>, copy: seq<Entry>)
    ensures Keys(base) <= Keys(Overlay(base, copy))
  {
    if copy != [] {
      var n := |copy| - 1;
      OverlayExtends(base, copy[..n]);
      SavedKeys(Overlay(base, copy[..n]), copy[n].key, copy[n].value);
    }
  }

  /** The keys of the first load come first in the merge. */
  lemma {:induction false} FirstLoadLeads(copies: seq<Remote>, now: int)
    requires forall i :: 0 <= i < |copies| ==> Clean(copies[i])
    ensures var f := FirstLoad(copies, now);
            && UniqueKeys(f) && Flagless(f) && Keys(f) <= Keys(Merge(copies, now))
            && (f == [] ==> Merge(copies, now) == [])
  {
    if copies != [] {
      var n := |copies| - 1;
      FirstLoadLeads(copies[..n], now);
      if !Expired(copies[n].time, now) {
        OverlayExtends(Merge(copies[..n], now), copies[n].values);
        if FirstLoad(copies[..n], now) == [] {
          OverlayOntoNothing(copies[n].values);
        }
      }
    }
  }

  lemma LedKey(m: seq<Entry>, f: seq<Entry>, key: string)
    requires Keys(f) <= Keys(m) && Has(f, key)
    ensures Has(m, key) && m[IndexOf(f, key)].key == key
  {
    assert Keys(m)[IndexOf(f, key)] == Keys(f)[IndexOf(f, key)];
    KeyIn(m, key);
  }

  lemma SameByLookup(m: seq<Entry>, f: seq<Entry>)
    requires UniqueKeys(m) && Flagless(m) && UniqueKeys(f) && Flagless(f) && Keys(f) <= Keys(m)
    requires forall key :: Lookup(m, key) == Lookup(f, key)
    ensures m == f
  {
    if |m| > |f| {
      var key := m[|f|].key;
      IndexOfUnique(m, |f|);
      assert Lookup(m, key) == Lookup(f, key);
      LedKey(m, f, key);
      assert false;
    }
    forall i | 0 <= i < |f| ensures m[i] == f[i] {
      assert Keys(m)[i] == Keys(f)[i];
      IndexOfUnique(m, i);
      IndexOfUnique(f, i);
      assert Lookup(m, f[i].key) == Lookup(f, f[i].key);
    }
  }

  /** The code keeps to the documented rule if and only if no copy that has the last word on a key
      says anything else about it than the first load does. */
  lemma FirstLoadWinsIff(copies: seq<Remote>, now: int)
    requires forall i :: 0 <= i < |copies| ==> Clean(copies[i])
    ensures Merge(copies, now) == FirstLoad(copies, now) <==>
            forall j: nat, key :: HasLastWord(copies, now, j, key) ==>
              Lookup(copies[j].values, key) == Lookup(FirstLoad(copies, now), key)
  {
    var m, f := Merge(copies, now), FirstLoad(copies, now);
    FirstLoadLeads(copies, now);
    MergeKeeps(copies, now);
    forall key
      ensures Lookup(m, key) == LastWins(copies, now, key)
      ensures LastWins(copies, now, key).Some? ==> exists j: nat :: HasLastWord(copies, now, j, key)
      ensures forall j: nat :: HasLastWord(copies, now, j, key) ==>
                LastWins(copies, now, key) == Lookup(copies[j].values, key)
    {
      MergeIsLastWins(copies, now, key);
      LastWinsIsLastWord(copies, now, key);
    }
    if forall j: nat, key :: HasLastWord(copies, now, j, key) ==> Lookup(copies[j].values, key) == Lookup(f, key) {
      forall key ensures Lookup(m, key) == Lookup(f, key) {
        if Has(f, key) {
          LedKey(m, f, key);
        }
      }
      SameByLookup(m, f);
    }
  }

  /** An input that breaks the rule: two databases that hold different values for one key. */
  lemma SecondLoadWins(key: string, first: Value, second: Value, now: int)
    requires first != second
    ensures var a, b := Remote([Entry(key, first, false)], Zero), Remote([Entry(key, second, false)], Zero);
            FirstLoad([a, b], now) == a.values && Merge([a, b], now) == b.values != a.values
  {
    var a, b := Remote([Entry(key, first, false)], Zero), Remote([Entry(key, second, false)], Zero);
    assert [a, b][..1] == [a] && [a][..0] == [];
    OverlayOntoNothing(a.values);
    assert FirstLoad([], now) == [] && FirstLoad([a], now) == a.values;
    assert Merge([a], now) == a.values;
    assert b.values[..0] == [];
    assert Overlay(a.values, b.values) == Saved(a.values, key, second, false);
  }

  // ---------- The loop of loadSessionFromDB ----------

  function CountExpired(copies: seq<Remote>, now: int): (n: nat)
    ensures n <= |copies|
    ensures n == |copies| <==> forall i :: 0 <= i < |copies| ==> Expired(copies[i].time, now)
  {
    if copies == [] then 0
    else
      CountExpired(copies[..|copies| - 1], now)
      + if Expired(copies[|copies| - 1].time, now) then 1 else 0
  }

  /** `n == firstValidIdx` holds on reaching the unexpired copy `i` exactly when it is the last
      copy and every earlier one has expired, so the shortcut never discards merged data. */
  lemma ShortcutTakenExactlyAtLast(copies: seq<Remote>, now: int, i: nat)
    requires i < |copies| && !Expired(copies[i].time, now)
    ensures |copies| == 1 + CountExpired(copies[..i], now)
            <==> i == |copies| - 1 && forall j :: 0 <= j < i ==> Expired(copies[j].time, now)
    ensures |copies| == 1 + CountExpired(copies[..i], now) ==> Merge(copies[..i], now) == []
  {
    assert CountExpired(copies[..i], now) <= i;
    if |copies| == 1 + CountExpired(copies[..i], now) {
      assert forall j :: 0 <= j < i ==> copies[..i][j] == copies[j];
      MergeOfDead(copies[..i], now);
    }
  }

  /** Nothing but missing and expired copies loads as nothing. */
  lemma {:induction false} MergeOfDead(copies: seq<Remote>, now: int)
    requires forall i :: 0 <= i < |copies| ==> Dead(copies[i], now)
    ensures Merge(copies, now) == [] && FirstTime(copies, now) == Zero
  {
    if copies != [] {
      MergeOfDead(copies[..|copies| - 1], now);
      MergeOfDead(copies[1..], now);
    }
  }

  lemma {:induction false} FirstTimeSnoc(copies: seq<Remote>, now: int)
    requires copies != []
    ensures var before, c := FirstTime(copies[..|copies| - 1], now), copies[|copies| - 1];
            FirstTime(copies, now) == if before != Zero then before
                                      else if Expired(c.time, now) then Zero else c.time
  {
    if |copies| > 1 {
      FirstTimeSnoc(copies[1..], now);
      assert copies[1..][..|copies| - 2] == copies[..|copies| - 1][1..];
    }
  }

  /** The stored time that counts is that of the first copy, in registration order, that has a time
      and has not expired; there is none if there is no such copy. */
  lemma {:induction false} FirstTimeIs(copies: seq<Remote>, now: int)
    ensures var t := FirstTime(copies, now);
            && (t == Zero <==> forall i :: 0 <= i < |copies| ==>
                  copies[i].time == Zero || copies[i].time.ns < now)
            && (t != Zero ==> exists i :: 0 <= i < |copies| && copies[i].time == t && t.ns >= now
                                          && forall j :: 0 <= j < i ==>
                                               copies[j].time == Zero || copies[j].time.ns < now)
  {
    if copies != [] {
      FirstTimeIs(copies[1..], now);
      var t := FirstTime(copies, now);
      assert forall i :: 0 < i < |copies| ==> copies[i] == copies[1..][i - 1];
      if t != Zero && FirstTime(copies[1..], now) == t && (copies[0].time == Zero || copies[0].time.ns < now) {
        var i :| 0 <= i < |copies| - 1 && copies[1..][i].time == t && t.ns >= now
                 && forall j :: 0 <= j < i ==> copies[1..][j].time == Zero || copies[1..][j].time.ns < now;
        assert copies[i + 1].time == t;
      }
    }
  }

  // ---------- Expired and absent copies ----------

  /** The two lists differ only where one has an expired copy and the other has nothing. */
  ghost predicate SameUnexpired(a: seq<Remote>, b: seq<Remote>, now: int) {
    && |a| == |b|
    && forall i :: 0 <= i < |a| ==>
         a[i] == b[i] || (Dead(a[i], now) && Dead(b[i], now))
  }

  predicate Dead(c: Remote, now: int) {
    c == NOTHING || Expired(c.time, now)
  }

  /** An expired copy and a missing copy cannot be told apart by a load. */
  lemma {:induction false} ExpiredIsAbsent(a: seq<Remote>, b: seq<Remote>, now: int)
    requires SameUnexpired(a, b, now)
    ensures Merge(a, now) == Merge(b, now) && FirstTime(a, now) == FirstTime(b, now)
  {
    if a != [] {
      var n := |a| - 1;
      ExpiredIsAbsent(a[..n], b[..n], now);
      FirstTimeSnoc(a, now);
      FirstTimeSnoc(b, now);
    }
  }

  /** While nothing has expired the clock does not matter. */
  lemma {:induction false} MergeIgnoresClock(copies: seq<Remote>, now: int, later: int)
    requires forall i :: 0 <= i < |copies| ==> !Expired(copies[i].time, now) && !Expired(copies[i].time, later)
    ensures Merge(copies, now) == Merge(copies, later) && FirstTime(copies, now) == FirstTime(copies, later)
  {
    if copies != [] {
      MergeIgnoresClock(copies[..|copies| - 1], now, later);
      MergeIgnoresClock(copies[1..], now, later);
    }
  }
}
