/** Concurrent writers on one session (session.go:266-291, 338-347, 361-367). The mutation runs
    under the session's lock; building the payload and handing it to each database does not. A
    payload holds the session's slice, not its contents: each database serialises what the shared
    buffer holds at the moment of its own delivery. */
module Writers {
  import opened Entries
  import opened Merging

  /** A slice of a buffer, from its start. */
  datatype Slice = Slice(buf: nat, len: nat)

  /** A payload on its way: databases receive it in registration order, `next` is the next one. */
  datatype Sending = Sending(slice: Slice, next: nat)

  datatype State = State(
    buffers: seq<seq<Entry>>,
    values: Slice,
    time: Time,
    copies: seq<Remote>,
    mutated: set<nat>,            // writers between their mutation and their payload
    sending: map<nat, Sending>,   // writers between their payload and its last delivery
    written: bool)

  /** `room` is the spare capacity that append leaves if it has to grow. */
  datatype Act = Mutate(writer: nat, w: Write, room: nat) | Capture(writer: nat) | Deliver(writer: nat)

  predicate InRange(buffers: seq<seq<Entry>>, sl: Slice) {
    sl.buf < |buffers| && sl.len <= |buffers[sl.buf]|
  }

  function Seen(buffers: seq<seq<Entry>>, sl: Slice): seq<Entry>
    requires InRange(buffers, sl)
  {
    buffers[sl.buf][..sl.len]
  }

  /** Save, Remove and Reset on the buffers (memstore.go:81-125, 328-348). */
  function MutatedBuffers(buffers: seq<seq<Entry>>, sl: Slice, w: Write, room: nat): (seq<seq<Entry>>, Slice)
    requires InRange(buffers, sl)
  {
    var b, es := buffers[sl.buf], Seen(buffers, sl);
    match w
    case Put(k, v, imm) =>
      var i, e := IndexOf(es, k), Entry(k, v, imm);
      if i < sl.len then
        (if es[i].immutable && !imm then buffers else buffers[sl.buf := b[i := e]], sl)
      else if sl.len < |b| then
        (buffers[sl.buf := b[sl.len := e]], sl.(len := sl.len + 1))
      else
        (buffers + [es + [e] + seq(room, _ => Entry("", Nil, false))], Slice(|buffers|, sl.len + 1))
    case Del(k) =>
      var i := IndexOf(es, k);
      if i == sl.len then (buffers, sl)
      else (buffers[sl.buf := es[..i] + es[i + 1..] + b[sl.len - 1..]], sl.(len := sl.len - 1))
    case Wipe => (buffers, sl.(len := 0))
  }

  ghost predicate WF(s: State) {
    InRange(s.buffers, s.values) && forall t :: t in s.sending ==> InRange(s.buffers, s.sending[t].slice)
  }

  /** What a database stores when it serialises the slice now. */
  function Serialised(s: State, sl: Slice): Remote {
    Remote(if InRange(s.buffers, sl) then Erase(Seen(s.buffers, sl)) else [], s.time)
  }

  /** What a database should hold. */
  function Now(s: State): Remote {
    Serialised(s, s.values)
  }

  function Step(s: State, a: Act): State {
    match a
    case Mutate(t, w, room) =>
      if t in s.mutated || t in s.sending || !InRange(s.buffers, s.values) then s
      else
        var (buffers, values) := MutatedBuffers(s.buffers, s.values, w, room);
        s.(buffers := buffers, values := values, mutated := s.mutated + {t}, written := true)
    case Capture(t) =>
      if t !in s.mutated then s
      else s.(mutated := s.mutated - {t},
              sending := if s.copies == [] then s.sending else s.sending[t := Sending(s.values, 0)])
    case Deliver(t) =>
      if t in s.sending && s.sending[t].next < |s.copies| then
        var p := s.sending[t];
        s.(copies := s.copies[p.next := Serialised(s, p.slice)],
           sending := if p.next + 1 == |s.copies| then s.sending - {t} else s.sending[t := p.(next := p.next + 1)])
      else s
  }

  function Run(s: State, acts: seq<Act>): State
    decreases |acts|
  {
    if acts == [] then s else Run(Step(s, acts[0]), acts[1..])
  }

  /** Through the slice the mutation is the write; the buffers that other slices see stay as long
      as they were. */
  lemma MutatedIsApplied(buffers: seq<seq<Entry>>, sl: Slice, w: Write, room: nat)
    requires InRange(buffers, sl)
    ensures var (after, values) := MutatedBuffers(buffers, sl, w, room);
            && InRange(after, values) && Seen(after, values) == Apply(Seen(buffers, sl), w)
            && |buffers| <= |after| && forall i :: 0 <= i < |buffers| ==> |after[i]| == |buffers[i]|
  {
    var b, es := buffers[sl.buf], Seen(buffers, sl);
    var (after, values) := MutatedBuffers(buffers, sl, w, room);
    match w
    case Put(k, v, imm) =>
      var i := IndexOf(es, k);
      if i == sl.len && i == |b| {
        assert after[|buffers|][..sl.len + 1] == es + [Entry(k, v, imm)];
      }
    case Del(k) =>
      var i := IndexOf(es, k);
      if i < sl.len {
        assert after[sl.buf][..sl.len - 1] == es[..i] + es[i + 1..];
      }
    case Wipe =>
  }

  lemma StepKeepsWF(s: State, a: Act)
    requires WF(s)
    ensures WF(Step(s, a))
  {
    if a.Mutate? {
      MutatedIsApplied(s.buffers, s.values, a.w, a.room);
      hide MutatedBuffers, Seen;
    }
  }

  // ---------- Writers that exclude one another ----------

  /** The assumption the code does not enforce: payload-and-delivery parts of different writers
      exclude one another. Mutations may still fall anywhere, also between two deliveries. */
  ghost predicate Exclusive(s: State, acts: seq<Act>)
    decreases |acts|
  {
    acts == [] || ((acts[0].Capture? ==> s.sending == map[]) && Exclusive(Step(s, acts[0]), acts[1..]))
  }

  /** Unless a mutation is still to be sent, every copy is up to date or about to be. */
  ghost predicate Converging(s: State) {
    WF(s) && (s.written && s.mutated == {} ==>
      && (forall t :: t in s.sending ==> s.sending[t].slice == s.values)
      && forall i :: 0 <= i < |s.copies| ==>
           s.copies[i] == Now(s) || exists t :: t in s.sending && s.sending[t].next <= i)
  }

  lemma StepKeepsConverging(s: State, a: Act)
    requires Converging(s) && (a.Capture? ==> s.sending == map[])
    ensures Converging(Step(s, a))
  {
    StepKeepsWF(s, a);
    hide WF, MutatedBuffers, Erase;
    var r := Step(s, a);
    if r.written && r.mutated == {} && a.Deliver? && r != s {
      forall i | 0 <= i < |r.copies|
        ensures r.copies[i] == Now(r) || exists t :: t in r.sending && r.sending[t].next <= i
      {
        if i != s.sending[a.writer].next && s.copies[i] != Now(s) {
          var t :| t in s.sending && s.sending[t].next <= i;
          assert t in r.sending && r.sending[t].next <= i;
        }
      }
    }
    if a.Capture? && r != s && s.copies != [] {
      assert a.writer in r.sending && r.sending[a.writer].next == 0;
    }
  }

  /** Concurrent writers converge: for any number of writers, in any interleaving in which
      payload-and-delivery parts exclude one another, whenever no writer is in between its steps
      every database holds exactly what memory holds, once something has been written. */
  lemma {:induction false} WritersConverge(s: State, acts: seq<Act>)
    requires Converging(s) && Exclusive(s, acts)
    ensures var r := Run(s, acts);
            Converging(r)
            && (r.written && r.mutated == {} && r.sending == map[] ==>
                  InRange(r.buffers, r.values) && forall i :: 0 <= i < |r.copies| ==>
                    r.copies[i] == Remote(Erase(Seen(r.buffers, r.values)), r.time))
    decreases |acts|
  {
    if acts != [] {
      StepKeepsConverging(s, acts[0]);
      WritersConverge(Step(s, acts[0]), acts[1..]);
    }
  }

  // ---------- Which schedules converge ----------

  /** A run with the data taken out: `n` mutations so far, and for each payload on its way and
      each database, the number of the mutation it was captured after. */
  datatype Versions = Versions(n: nat, mutated: set<nat>, sending: map<nat, (nat, nat)>, copies: seq<nat>)

  function Track(v: Versions, a: Act): Versions {
    match a
    case Mutate(t, _, _) =>
      if t in v.mutated || t in v.sending then v else v.(n := v.n + 1, mutated := v.mutated + {t})
    case Capture(t) =>
      if t !in v.mutated then v
      else v.(mutated := v.mutated - {t}, sending := if v.copies == [] then v.sending else v.sending[t := (v.n, 0)])
    case Deliver(t) =>
      if t in v.sending && v.sending[t].1 < |v.copies| then
        var p := v.sending[t];
        v.(copies := v.copies[p.1 := p.0],
           sending := if p.1 + 1 == |v.copies| then v.sending - {t} else v.sending[t := (p.0, p.1 + 1)])
      else v
  }

  function TrackAll(v: Versions, acts: seq<Act>): Versions
    decreases |acts|
  {
    if acts == [] then v else TrackAll(Track(v, acts[0]), acts[1..])
  }

  /** The two runs differ only in what their mutations write, and in the room append leaves. */
  ghost predicate SameSchedule(a: seq<Act>, b: seq<Act>) {
    |a| == |b| && forall i :: 0 <= i < |a| ==> SameMove(a[i], b[i])
  }

  predicate SameMove(a: Act, b: Act) {
    if a.Mutate? then b.Mutate? && a.writer == b.writer else a == b
  }

  /** Every database holds what memory holds. */
  ghost predicate Current(s: State) {
    InRange(s.buffers, s.values) &&
    forall i :: 0 <= i < |s.copies| ==> s.copies[i] == Remote(Erase(Seen(s.buffers, s.values)), s.time)
  }

  ghost predicate Idle(s: State) {
    WF(s) && s.mutated == {} && s.sending == map[]
  }

  function Initial(s: State): Versions {
    Versions(0, {}, map[], seq(|s.copies|, _ => 0))
  }

  /** The last payload each database received was captured after the last mutation. */
  ghost predicate LatestEverywhere(v: Versions) {
    forall i :: 0 <= i < |v.copies| ==> v.copies[i] == v.n
  }

  ghost predicate SameShape(s: State, v: Versions) {
    && WF(s) && s.mutated == v.mutated && |s.copies| == |v.copies| && s.sending.Keys == v.sending.Keys
    && (forall t :: t in v.sending ==> s.sending[t].next == v.sending[t].1 && v.sending[t].0 <= v.n)
    && forall i :: 0 <= i < |v.copies| ==> v.copies[i] <= v.n
  }

  /** Payloads and copies of the latest version are up to date; nothing is said of older ones,
      which later mutations may have overwritten on their way. */
  ghost predicate LatestIsNow(s: State, v: Versions) {
    && SameShape(s, v)
    && (forall t :: t in v.sending && v.sending[t].0 == v.n ==> s.sending[t].slice == s.values)
    && forall i :: 0 <= i < |v.copies| && v.copies[i] == v.n ==> s.copies[i] == Now(s)
  }

  lemma StepKeepsShape(s: State, v: Versions, a: Act)
    requires SameShape(s, v)
    ensures SameShape(Step(s, a), Track(v, a))
  {
    StepKeepsWF(s, a);
    assert a.Mutate? && WF(s) ==> InRange(s.buffers, s.values);
    hide WF, MutatedBuffers, InRange, Serialised;
  }

  lemma MutateKeepsLatest(s: State, v: Versions, a: Act)
    requires LatestIsNow(s, v) && a.Mutate?
    ensures LatestIsNow(Step(s, a), Track(v, a))
  {
    StepKeepsShape(s, v, a);
    assert InRange(s.buffers, s.values);
    hide WF, MutatedBuffers, InRange, Serialised;
  }

  lemma DeliverKeepsLatest(s: State, v: Versions, a: Act)
    requires LatestIsNow(s, v) && a.Deliver?
    ensures LatestIsNow(Step(s, a), Track(v, a))
  {
    StepKeepsShape(s, v, a);
    hide WF;
  }

  lemma StepKeepsLatest(s: State, v: Versions, a: Act)
    requires LatestIsNow(s, v)
    ensures LatestIsNow(Step(s, a), Track(v, a))
  {
    StepKeepsShape(s, v, a);
    match a
    case Mutate(_, _, _) => MutateKeepsLatest(s, v, a);
    case Deliver(_) => DeliverKeepsLatest(s, v, a);
    case Capture(_) => hide WF, Serialised;
  }

  lemma {:induction false} RunKeepsLatest(s: State, v: Versions, acts: seq<Act>)
    requires LatestIsNow(s, v)
    ensures LatestIsNow(Run(s, acts), TrackAll(v, acts))
    decreases |acts|
  {
    if acts != [] {
      StepKeepsLatest(s, v, acts[0]);
      RunKeepsLatest(Step(s, acts[0]), Track(v, acts[0]), acts[1..]);
    }
  }

  lemma {:induction false} SameVersions(v: Versions, a: seq<Act>, b: seq<Act>)
    requires SameSchedule(a, b)
    ensures TrackAll(v, a) == TrackAll(v, b)
    decreases |a|
  {
    if a != [] {
      assert SameMove(a[0], b[0]);
      SameVersions(Track(v, a[0]), a[1..], b[1..]);
    }
  }

  function FreshWrite(bound: nat): Write {
    Put(seq(bound, _ => 'k'), Nil, false)
  }

  /** Writes that each add a key longer than any before. */
  function Growing(acts: seq<Act>, bound: nat): (b: seq<Act>)
    ensures SameSchedule(acts, b)
    decreases |acts|
  {
    if acts == [] then []
    else
      var a := acts[0];
      [if a.Mutate? then Mutate(a.writer, FreshWrite(bound), 0) else a] + Growing(acts[1..], bound + 1)
  }

  ghost predicate KeysBelow(es: seq<Entry>, bound: nat) {
    forall i :: 0 <= i < |es| ==> |es[i].key| < bound
  }

  lemma FreshWriteAppends(es: seq<Entry>, bound: nat)
    requires KeysBelow(es, bound)
    ensures |Apply(es, FreshWrite(bound))| == |es| + 1 && KeysBelow(Apply(es, FreshWrite(bound)), bound + 1)
  {
  }

  /** The number of entries tells the version. */
  ghost predicate Sized(s: State, v: Versions, base: nat) {
    && SameShape(s, v) && s.values.len == base + v.n
    && (forall t :: t in v.sending ==> s.sending[t].slice.len == base + v.sending[t].0)
    && forall i :: 0 <= i < |v.copies| ==> |s.copies[i].values| == base + v.copies[i]
  }

  lemma StepSized(s: State, v: Versions, a: Act, base: nat, bound: nat)
    requires Sized(s, v, base) && KeysBelow(Seen(s.buffers, s.values), bound)
    requires a.Mutate? ==> a.w == FreshWrite(bound)
    ensures var t := Step(s, a);
            Sized(t, Track(v, a), base) && KeysBelow(Seen(t.buffers, t.values), bound + 1)
  {
    StepKeepsShape(s, v, a);
    if a.Mutate? {
      MutatedIsApplied(s.buffers, s.values, a.w, a.room);
      FreshWriteAppends(Seen(s.buffers, s.values), bound);
    }
    hide MutatedBuffers, Apply, FreshWrite;
  }

  lemma {:induction false} RunSized(s: State, v: Versions, acts: seq<Act>, base: nat, bound: nat)
    requires Sized(s, v, base) && KeysBelow(Seen(s.buffers, s.values), bound)
    ensures Sized(Run(s, Growing(acts, bound)), TrackAll(v, acts), base)
    decreases |acts|
  {
    if acts != [] {
      var b := Growing(acts, bound);
      StepSized(s, v, b[0], base, bound);
      assert b[1..] == Growing(acts[1..], bound + 1);
      assert Track(v, acts[0]) == Track(v, b[0]);
      RunSized(Step(s, b[0]), Track(v, b[0]), acts[1..], base, bound + 1);
    }
  }

  function LongestKey(es: seq<Entry>): (n: nat)
    ensures KeysBelow(es, n + 1)
  {
    if es == [] then 0
    else
      var last, n := es[|es| - 1], LongestKey(es[..|es| - 1]);
      assert forall i :: 0 <= i < |es| - 1 ==> es[i] == es[..|es| - 1][i];
      if |last.key| > n then |last.key| else n
  }

  /** With no exclusion assumed at all: an interleaving leaves every database with what memory
      holds, whatever is written, if and only if the last payload each database received was
      captured after the last mutation. The condition looks at the order of steps alone. */
  lemma ConvergesIffLatestCapturedLast(s: State, acts: seq<Act>)
    requires Idle(s) && Current(s)
    ensures LatestEverywhere(TrackAll(Initial(s), acts)) <==>
            forall b :: SameSchedule(acts, b) ==> Current(Run(s, b))
  {
    var v := Initial(s);
    if LatestEverywhere(TrackAll(v, acts)) {
      forall b | SameSchedule(acts, b) ensures Current(Run(s, b)) {
        SameVersions(v, acts, b);
        RunKeepsLatest(s, v, b);
      }
    }
    if forall b :: SameSchedule(acts, b) ==> Current(Run(s, b)) {
      var es := Seen(s.buffers, s.values);
      var bound := LongestKey(es) + 1;
      RunSized(s, v, acts, |es|, bound);
      assert Current(Run(s, Growing(acts, bound)));
    }
  }

  /** Two writers and one database are enough to lose an update for good: the first one's older
      payload arrives after the second one's, and no writer is left to send a newer one. */
  lemma OverlappingPayloadsDiverge(s: State, w: Write)
    requires Idle(s) && Current(s) && |s.copies| == 1
    ensures var acts := [Mutate(0, w, 0), Capture(0), Mutate(1, w, 0), Capture(1), Deliver(1), Deliver(0)];
            var end := TrackAll(Initial(s), acts);
            && end.mutated == {} && end.sending == map[] && end.copies == [1] && end.n == 2
            && exists b :: SameSchedule(acts, b) && !Current(Run(s, b))
  {
    var acts := [Mutate(0, w, 0), Capture(0), Mutate(1, w, 0), Capture(1), Deliver(1), Deliver(0)];
    var v0 := Initial(s);
    var v2 := Versions(1, {}, map[0 := (1, 0)], [0]);
    var v4 := Versions(2, {}, map[0 := (1, 0), 1 := (2, 0)], [0]);
    assert Track(Track(v0, acts[0]), acts[1]) == v2;
    assert Track(Track(v2, acts[2]), acts[3]) == v4;
    TrackTwo(v0, acts);
    TrackTwo(v2, acts[2..]);
    TrackTwo(v4, acts[2..][2..]);
    assert acts[2..][2..][2..] == [];
    assert TrackAll(v0, acts).copies[0] == 1;
    ConvergesIffLatestCapturedLast(s, acts);
    var b :| SameSchedule(acts, b) && !Current(Run(s, b));
  }

  lemma TrackTwo(v: Versions, acts: seq<Act>)
    requires |acts| >= 2
    ensures TrackAll(v, acts) == TrackAll(Track(Track(v, acts[0]), acts[1]), acts[2..])
  {
    assert acts[1..][1..] == acts[2..];
  }

  /** What an overtaken payload can store was never in memory: another writer deletes the first of
      two entries before the payload is delivered, and the database is left with the second one
      twice. */
  lemma OvertakenPayloadIsTorn(a: Entry, b: Entry, c: Remote)
    requires a.key != b.key
    ensures var s := State([[a, b]], Slice(0, 2), Zero, [c], {}, map[0 := Sending(Slice(0, 2), 0)], true);
            var r := Run(s, [Mutate(1, Del(a.key), 0), Deliver(0)]);
            Converging(s) && |r.copies| == 1 && r.copies[0].values == Erase([b, b]) && !UniqueKeys(r.copies[0].values)
  {
    var s := State([[a, b]], Slice(0, 2), Zero, [c], {}, map[0 := Sending(Slice(0, 2), 0)], true);
    var x, y := Mutate(1, Del(a.key), 0), Deliver(0);
    var m := s.(buffers := [[b, b]], values := Slice(0, 1), mutated := {1});
    assert Seen(s.buffers, s.values) == [a, b];
    assert IndexOf([a, b], a.key) == 0;
    assert [a, b][..0] + [a, b][1..] + [a, b][1..] == [b, b];
    assert Step(s, x) == m;
    assert Seen(m.buffers, Slice(0, 2)) == [b, b];
    assert [x, y][1..] == [y] && [y][1..] == [];
    assert Run(m, [y]) == Run(Step(m, y), []);
    var e := Erase([b, b]);
    assert e[0].key == e[1].key;
  }
}
