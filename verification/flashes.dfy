/** The life of a flash message over whole runs of the machine, with atomic methods
    (session.go:58-66, 82-110, 247-256, 329-333, 353-377; provider.go:164-171). */
module Flashes {
  import opened Entries
  import opened Machine

  /** Where one key's message is in its life. */
  datatype Phase = Gone | Fresh(value: Value) | Fetched(value: Value)

  function PhaseOf(fs: map<string, Flash>, key: string): Phase {
    if key !in fs then Gone
    else if fs[key].shouldRemove then Fetched(fs[key].value) else Fresh(fs[key].value)
  }

  /** What GetFlash and PeekFlash return. */
  function Shown(p: Phase): Value {
    if p.Gone? then Nil else p.value
  }

  /** The action is a request that reads the live session `h`. */
  predicate Request(s: State, a: Act, h: nat) {
    var sid := if a.Read? then Some(a.sid) else if a.Start? && a.cookie != "" then Some(a.cookie) else None;
    sid.Some? && sid.value in s.live && s.live[sid.value] == h
  }

  /** The reference: fetching marks, the next request removes what is marked. */
  function Next(p: Phase, s: State, a: Act, h: nat, key: string): Phase {
    if Request(s, a, h) then (if p.Fetched? then Gone else p)
    else if !(a.Flashing? && a.h == h) then p
    else match a.f
      case SetFlash(k, v) => if k == key then Fresh(v) else p
      case GetFlash(k) => if k == key && p.Fresh? then Fetched(p.value) else p
      case PeekFlash(k) => p
      case GetFlashes => if p.Fresh? then Fetched(p.value) else p
      case DeleteFlash(k) => if k == key then Gone else p
      case ClearFlashes => Gone
  }

  function Phased(p: Phase, s: State, acts: seq<Act>, h: nat, key: string): Phase
    decreases |acts|
  {
    if acts == [] then p else Phased(Next(p, s, acts[0], h, key), Step(s, acts[0]), acts[1..], h, key)
  }

  lemma StepFollowsPhases(s: State, a: Act, h: nat, key: string)
    requires h < |s.heap| && !a.Restart?
    ensures var t := Step(s, a);
            h < |t.heap| && PhaseOf(t.heap[h].flashes, key) == Next(PhaseOf(s.heap[h].flashes, key), s, a, h, key)
  {
  }

  /** Every run of the engine takes each flash key of each session through the reference life. */
  lemma {:induction false} RunFollowsPhases(s: State, acts: seq<Act>, h: nat, key: string)
    requires h < |s.heap| && forall i :: 0 <= i < |acts| ==> !acts[i].Restart?
    ensures var t := Run(s, acts);
            h < |t.heap| && PhaseOf(t.heap[h].flashes, key) == Phased(PhaseOf(s.heap[h].flashes, key), s, acts, h, key)
    decreases |acts|
  {
    if acts != [] {
      StepFollowsPhases(s, acts[0], h, key);
      RunFollowsPhases(Step(s, acts[0]), acts[1..], h, key);
    }
  }

  predicate Overwrites(a: Act, h: nat, key: string) {
    a.Flashing? && a.h == h && (a.f.ClearFlashes? || ((a.f.SetFlash? || a.f.DeleteFlash?) && a.f.key == key))
  }

  predicate Fetches(a: Act, h: nat, key: string) {
    a.Flashing? && a.h == h && (a.f.GetFlashes? || (a.f.GetFlash? && a.f.key == key))
  }

  ghost predicate NoRequest(s: State, acts: seq<Act>, h: nat)
    decreases |acts|
  {
    acts == [] || (!Request(s, acts[0], h) && NoRequest(Step(s, acts[0]), acts[1..], h))
  }

  /** Unfetched, it survives any number of requests and peeks. */
  lemma {:induction false} FreshSurvives(p: Phase, s: State, acts: seq<Act>, h: nat, key: string)
    requires p.Fresh? && forall i :: 0 <= i < |acts| ==> !Overwrites(acts[i], h, key) && !Fetches(acts[i], h, key)
    ensures Phased(p, s, acts, h, key) == p
    decreases |acts|
  {
    if acts != [] {
      FreshSurvives(p, Step(s, acts[0]), acts[1..], h, key);
    }
  }

  /** Fetched, it is still shown until the next request for the session. */
  lemma {:induction false} FetchedUntilRequest(p: Phase, s: State, acts: seq<Act>, h: nat, key: string)
    requires p.Fetched? && NoRequest(s, acts, h) && forall i :: 0 <= i < |acts| ==> !Overwrites(acts[i], h, key)
    ensures Phased(p, s, acts, h, key) == p
    decreases |acts|
  {
    if acts != [] {
      FetchedUntilRequest(p, Step(s, acts[0]), acts[1..], h, key);
    }
  }

  /** Gone, it stays gone until it is set again. */
  lemma {:induction false} GoneUntilSet(p: Phase, s: State, acts: seq<Act>, h: nat, key: string)
    requires p.Gone? && forall i :: 0 <= i < |acts| ==>
                          !(acts[i].Flashing? && acts[i].h == h && acts[i].f.SetFlash? && acts[i].f.key == key)
    ensures Phased(p, s, acts, h, key) == p
    decreases |acts|
  {
    if acts != [] {
      GoneUntilSet(p, Step(s, acts[0]), acts[1..], h, key);
    }
  }

  function FlashIn(s: State, h: nat, key: string): Phase {
    if h < |s.heap| then PhaseOf(s.heap[h].flashes, key) else Gone
  }

  ghost predicate SetsAgain(a: Act, h: nat, key: string) {
    a.Flashing? && a.h == h && a.f.SetFlash? && a.f.key == key
  }

  ghost predicate NoRestart(acts: seq<Act>) {
    forall i :: 0 <= i < |acts| ==> !acts[i].Restart?
  }

  lemma ShownBeforeFetch(s: State, acts: seq<Act>, h: nat, key: string, v: Value)
    requires h < |s.heap| && NoRestart(acts) && FlashIn(s, h, key) == Fresh(v)
    requires forall i :: 0 <= i < |acts| ==> !Overwrites(acts[i], h, key) && !Fetches(acts[i], h, key)
    ensures h < |Run(s, acts).heap| && FlashIn(Run(s, acts), h, key) == Fresh(v)
  {
    RunFollowsPhases(s, acts, h, key);
    FreshSurvives(Fresh(v), s, acts, h, key);
  }

  lemma ShownUntilRequest(s: State, acts: seq<Act>, h: nat, key: string, v: Value)
    requires h < |s.heap| && NoRestart(acts) && NoRequest(s, acts, h) && FlashIn(s, h, key) == Fetched(v)
    requires forall i :: 0 <= i < |acts| ==> !Overwrites(acts[i], h, key)
    ensures h < |Run(s, acts).heap| && FlashIn(Run(s, acts), h, key) == Fetched(v)
  {
    RunFollowsPhases(s, acts, h, key);
    FetchedUntilRequest(Fetched(v), s, acts, h, key);
  }

  lemma GoneAfterRequest(s: State, request: Act, acts: seq<Act>, h: nat, key: string)
    requires h < |s.heap| && NoRestart(acts) && Request(s, request, h) && FlashIn(s, h, key).Fetched?
    requires forall i :: 0 <= i < |acts| ==> !SetsAgain(acts[i], h, key)
    ensures FlashIn(Step(s, request), h, key) == FlashIn(Run(Step(s, request), acts), h, key) == Gone
  {
    StepFollowsPhases(s, request, h, key);
    RunFollowsPhases(Step(s, request), acts, h, key);
    GoneUntilSet(Gone, Step(s, request), acts, h, key);
  }

  lemma SetThenFetched(s: State, h: nat, key: string, v: Value, before: seq<Act>)
    requires h < |s.heap| && NoRestart(before)
    requires forall i :: 0 <= i < |before| ==> !Overwrites(before[i], h, key) && !Fetches(before[i], h, key)
    ensures var s1 := Step(s, Flashing(h, SetFlash(key, v)));
            var s2 := Run(s1, before);
            var s3 := Step(s2, Flashing(h, GetFlash(key)));
            && FlashIn(s1, h, key) == FlashIn(s2, h, key) == Fresh(v)
            && h < |s3.heap| && FlashIn(s3, h, key) == Fetched(v)
  {
    var s1 := Step(s, Flashing(h, SetFlash(key, v)));
    StepFollowsPhases(s, Flashing(h, SetFlash(key, v)), h, key);
    ShownBeforeFetch(s1, before, h, key, v);
    StepFollowsPhases(Run(s1, before), Flashing(h, GetFlash(key)), h, key);
  }

  lemma FetchedThenGone(s: State, h: nat, key: string, v: Value, during: seq<Act>, request: Act, after: seq<Act>)
    requires h < |s.heap| && FlashIn(s, h, key) == Fetched(v) && NoRestart(during) && NoRestart(after)
    requires forall i :: 0 <= i < |during| ==> !Overwrites(during[i], h, key)
    requires forall i :: 0 <= i < |after| ==> !SetsAgain(after[i], h, key)
    requires NoRequest(s, during, h) && Request(Run(s, during), request, h)
    ensures FlashIn(Run(s, during), h, key) == Fetched(v)
    ensures var s5 := Step(Run(s, during), request);
            FlashIn(s5, h, key) == FlashIn(Run(s5, after), h, key) == Gone
  {
    ShownUntilRequest(s, during, h, key, v);
    GoneAfterRequest(Run(s, during), request, after, h, key);
  }

  /** The whole life: a message set for `key` is shown throughout `before` (no fetch, any requests
      and peeks), is shown when fetched and throughout `during` (no request), and from the next
      request on is never shown again, whatever happens in `after`, unless it is set again. */
  lemma FlashLifecycle(s: State, h: nat, key: string, v: Value, before: seq<Act>,
                       s3: State, during: seq<Act>, request: Act, after: seq<Act>)
    requires h < |s.heap| && NoRestart(before) && NoRestart(during) && NoRestart(after)
    requires forall i :: 0 <= i < |before| ==> !Overwrites(before[i], h, key) && !Fetches(before[i], h, key)
    requires forall i :: 0 <= i < |during| ==> !Overwrites(during[i], h, key)
    requires forall i :: 0 <= i < |after| ==> !SetsAgain(after[i], h, key)
    requires s3 == Step(Run(Step(s, Flashing(h, SetFlash(key, v))), before), Flashing(h, GetFlash(key)))
    requires NoRequest(s3, during, h) && Request(Run(s3, during), request, h)
    ensures var s1 := Step(s, Flashing(h, SetFlash(key, v)));
            FlashIn(s1, h, key) == FlashIn(Run(s1, before), h, key) == Fresh(v)
    ensures FlashIn(s3, h, key) == FlashIn(Run(s3, during), h, key) == Fetched(v)
    ensures var s5 := Step(Run(s3, during), request);
            FlashIn(s5, h, key) == FlashIn(Run(s5, after), h, key) == Gone
  {
    SetThenFetched(s, h, key, v, before);
    FetchedThenGone(s3, h, key, v, during, request, after);
  }
}
